/** What `app.py` makes of one attached image: the candidate amounts and kWh
    values found in the OCR text, and the acceptance policy that turns them
    into one amount and one kWh value or a rejection. OCR, EXIF decoding,
    hashing and the regular expressions are outside the model: the regex
    matches and the EXIF tags arrive as inputs. */
module Extraction {
  import opened Common
  import opened Numerals
  import opened Datetimes

  /** What the download, hashing, OCR and regex steps produced for one image,
      or that one of them raised: the SHA-256 digest, the EXIF tags by number,
      the text `str(extract_exif_data(img))` stored with the hash, the money
      and kWh regex matches, and the first slash-date and dash-date matches. */
  datatype Media =
    | Unreadable
    | Scanned(imageHash: string, exif: map<int, string>, exifText: string,
              moneyMatches: seq<string>, kwhMatches: seq<string>,
              slashDate: Option<DateMatch>, dashDate: Option<DateMatch>)

  /** `float(match.replace('$', '').replace(',', ''))`: dollar signs and
      thousands separators are ignored, and only a minus sign in the match
      makes the amount negative. */
  function MoneyValue(m: string): (r: Option<real>)
    ensures '$' !in m && ',' !in m ==> r == ParseDecimal(m)
    ensures r.Some? && r.value < 0.0 ==> '-' in m
  {
    var u := RemoveAll(m, "$");
    CleanedMatch(m, u, RemoveAll(u, ","));
    ParseDecimal(RemoveAll(u, ","))
  }

  /** `float(match.replace(',', ''))`: thousands separators are ignored,
      and only a minus sign in the match makes the value negative. */
  function KwhValue(m: string): (r: Option<real>)
    ensures ',' !in m ==> r == ParseDecimal(m)
    ensures r.Some? && r.value < 0.0 ==> '-' in m
  {
    CleanedMatch(m, m, RemoveAll(m, ","));
    ParseDecimal(RemoveAll(m, ","))
  }

  /** The text a match is cleaned to before `float`: the match itself when
      it holds none of the removed characters, and never a minus sign the
      match did not hold. */
  lemma CleanedMatch(m: string, u: string, t: string)
    requires u == m || u == RemoveAll(m, "$")
    requires t == RemoveAll(u, ",")
    ensures ',' !in m && (u == m || '$' !in m) ==> t == m
    ensures Strip(t) != [] && Strip(t)[0] == '-' ==> '-' in m
  {
    if u != m && '$' !in m {
      RemoveAllAbsent(m, "$");
    }
    if ',' !in m && u == m {
      RemoveAllAbsent(m, ",");
    }
    if Strip(t) != [] && Strip(t)[0] == '-' {
      assert t[LeadingSpaces(t)] == '-';
      RemoveAllKeeps(u, ",", '-');
      if u != m {
        RemoveAllKeeps(m, "$", '-');
      }
    }
  }

  /** A comma anywhere in a money match is dropped before `float`. */
  lemma MoneyValueIgnoresComma(a: string, b: string)
    ensures MoneyValue(a + "," + b) == MoneyValue(a + b)
  {
    RemoveAllKeepsOther(a, b, '$', ',');
    RemoveAllConcat(a, b, '$');
    RemoveAllDrops(RemoveAll(a, "$"), RemoveAll(b, "$"), ',');
  }

  /** A dollar sign anywhere in a money match is dropped before `float`. */
  lemma MoneyValueIgnoresDollar(a: string, b: string)
    ensures MoneyValue(a + "$" + b) == MoneyValue(a + b)
  {
    RemoveAllDrops(a, b, '$');
  }

  /** A comma anywhere in a kWh match is dropped before `float`. */
  lemma KwhValueIgnoresComma(a: string, b: string)
    ensures KwhValue(a + "," + b) == KwhValue(a + b)
  {
    RemoveAllDrops(a, b, ',');
  }

  /** A dollar amount with a thousands separator, such as "$1,234.56",
      converts as the same text without the sign and the separator
      ("1234.56"). */
  lemma MoneyValueOfGrouped(a: string, b: string)
    requires '$' !in a && '$' !in b && ',' !in a && ',' !in b
    ensures MoneyValue("$" + a + "," + b) == ParseDecimal(a + b)
  {
    var tail := a + "," + b;
    assert "$" + a + "," + b == [] + "$" + tail by {
      assert "$" + a + "," + b == "$" + (a + "," + b);
    }
    assert [] + tail == tail;
    MoneyValueIgnoresDollar([], tail);
    MoneyValueIgnoresComma(a, b);
    assert '$' !in a + b && ',' !in a + b;
  }

  /** A kWh value with a thousands separator, such as "1,234.5", converts
      as the same text without the separator ("1234.5"). */
  lemma KwhValueOfGrouped(a: string, b: string)
    requires ',' !in a && ',' !in b
    ensures KwhValue(a + "," + b) == ParseDecimal(a + b)
  {
    KwhValueIgnoresComma(a, b);
    assert ',' !in a + b;
  }

  /** A list comprehension over the matches: the converted values, or None
      as soon as one conversion raises. */
  function ConvertAll(ms: seq<string>, convert: string -> Option<real>): (r: Option<seq<real>>)
    ensures r.Some? <==> forall i :: 0 <= i < |ms| ==> convert(ms[i]).Some?
    ensures r.Some? ==> |r.value| == |ms| && forall i :: 0 <= i < |ms| ==> convert(ms[i]) == Some(r.value[i])
  {
    if ms == [] then Some([])
    else
      match convert(ms[0])
      case None => None
      case Some(x) =>
        match ConvertAll(ms[1..], convert)
        case None => (assert convert(ms[1..][0]).None? || exists i :: 0 <= i < |ms[1..]| && convert(ms[1..][i]).None?; None)
        case Some(rest) => Some([x] + rest)
  }

  /** Every money match and every kWh match of a scanned image converts;
      one `float(...)` that raises sends the whole extraction to its
      exception handler. */
  predicate AllConvert(media: Media)
    requires media.Scanned?
  {
    && (forall i :: 0 <= i < |media.moneyMatches| ==> MoneyValue(media.moneyMatches[i]).Some?)
    && (forall i :: 0 <= i < |media.kwhMatches| ==> KwhValue(media.kwhMatches[i]).Some?)
  }

  /** The amounts and kWh values `extract_money_and_kwh_from_image` returns:
      None for a field with no match, and None for both when any step raised. */
  datatype Candidates = Candidates(amounts: Option<seq<real>>, kwhs: Option<seq<real>>)

  function ExtractCandidates(media: Media): (c: Candidates)
    ensures c.amounts.Some? <==> media.Scanned? && media.moneyMatches != [] && AllConvert(media)
    ensures c.kwhs.Some? <==> media.Scanned? && media.kwhMatches != [] && AllConvert(media)
    ensures c.amounts.Some? ==> |c.amounts.value| == |media.moneyMatches|
                                && forall i :: 0 <= i < |c.amounts.value| ==> MoneyValue(media.moneyMatches[i]) == Some(c.amounts.value[i])
    ensures c.kwhs.Some? ==> |c.kwhs.value| == |media.kwhMatches|
                             && forall i :: 0 <= i < |c.kwhs.value| ==> KwhValue(media.kwhMatches[i]) == Some(c.kwhs.value[i])
  {
    match media
    case Unreadable => Candidates(None, None)
    case Scanned(_, _, _, money, kwh, _, _) =>
      var a := ConvertAll(money, MoneyValue);
      var k := ConvertAll(kwh, KwhValue);
      if a.None? || k.None? then Candidates(None, None)
      else Candidates(if money == [] then None else a, if kwh == [] then None else k)
  }

  // ---------------------------------------------------------------------
  // Acceptance policy

  datatype Decision =
    | Accepted(amount: real, kwh: real)
    | NotFound
    | AmbiguousAmount(amounts: set<real>)
    | AmbiguousKwh(kwhs: set<real>)

  /** Every candidate is the same value. */
  predicate AllSame(s: seq<real>)
  {
    forall i, j :: 0 <= i < |s| && 0 <= j < |s| ==> s[i] == s[j]
  }

  function Distinct(s: seq<real>): set<real>
  {
    set x | x in s
  }

  /** `len(set(values)) > 1` is exactly "not all candidates are the same". */
  lemma DistinctAtMostOne(s: seq<real>)
    ensures |Distinct(s)| <= 1 <==> AllSame(s)
  {
    if |Distinct(s)| <= 1 {
      forall i, j | 0 <= i < |s| && 0 <= j < |s| ensures s[i] == s[j] {
        if s[i] != s[j] {
          assert {s[i], s[j]} <= Distinct(s);
          assert |{s[i], s[j]}| == 2;
          SubsetCard({s[i], s[j]}, Distinct(s));
        }
      }
    }
    if AllSame(s) {
      AllSameCard(s);
    }
  }

  lemma AllSameCard(s: seq<real>)
    requires AllSame(s)
    ensures |Distinct(s)| <= 1
  {
    if s != [] {
      assert Distinct(s) == {s[0]};
    }
  }

  lemma SubsetCard<T>(a: set<T>, b: set<T>)
    requires a <= b
    ensures |a| <= |b|
  {
    assert b == a + (b - a);
  }

  /** The checks of `handle_sms` in their order: a missing field, then more
      than one distinct amount, then more than one distinct kWh value; when
      all pass, the first value of each list is used. */
  function Decide(c: Candidates): (d: Decision)
    ensures d.Accepted? <==> c.amounts.Some? && c.kwhs.Some? && c.amounts.value != [] && c.kwhs.value != []
                             && AllSame(c.amounts.value) && AllSame(c.kwhs.value)
    ensures d.Accepted? ==> (forall x :: x in c.amounts.value ==> x == d.amount)
                            && (forall y :: y in c.kwhs.value ==> y == d.kwh)
    ensures d.NotFound? <==> c.amounts.None? || c.kwhs.None?
    ensures d.AmbiguousAmount? ==> c.amounts.Some? && !AllSame(c.amounts.value) && d.amounts == Distinct(c.amounts.value)
    ensures d.AmbiguousKwh? ==> c.amounts.Some? && AllSame(c.amounts.value)
                                && c.kwhs.Some? && !AllSame(c.kwhs.value) && d.kwhs == Distinct(c.kwhs.value)
    requires c.amounts.Some? ==> c.amounts.value != []
    requires c.kwhs.Some? ==> c.kwhs.value != []
  {
    match (c.amounts, c.kwhs)
    case (None, _) => NotFound
    case (_, None) => NotFound
    case (Some(amounts), Some(kwhs)) =>
      DistinctAtMostOne(amounts);
      DistinctAtMostOne(kwhs);
      if |Distinct(amounts)| > 1 then AmbiguousAmount(Distinct(amounts))
      else if |Distinct(kwhs)| > 1 then AmbiguousKwh(Distinct(kwhs))
      else Accepted(amounts[0], kwhs[0])
  }

  /** Two different dollar amounts in one image are refused as ambiguous,
      whatever the kWh values are. */
  lemma TwoAmountsAmbiguous(a: real, b: real, kwhs: seq<real>)
    requires a != b && kwhs != []
    ensures Decide(Candidates(Some([a, b]), Some(kwhs))).AmbiguousAmount?
  {
    assert Distinct([a, b]) == {a, b};
    assert |{a, b}| == 2;
  }

  /** A dollar match "$d.dd" without thousands separators converts to its
      value. */
  lemma MoneyValueOfNumeral(c: nat, w: nat)
    requires c / 100 < Pow10(w)
    ensures MoneyValue("$" + FormatHundredths(c, w)) == Some(c as real / 100.0)
  {
    var s := FormatHundredths(c, w);
    HundredthsChars(c, w);
    assert ("$" + s)[..1] == "$" && ("$" + s)[1..] == s;
    RemoveAllAbsent(s, "$");
    RemoveAllAbsent(s, ",");
    ParseHundredths(c, w);
  }

  lemma KwhValueOfNumeral(c: nat, w: nat)
    requires c / 100 < Pow10(w)
    ensures KwhValue(FormatHundredths(c, w)) == Some(c as real / 100.0)
  {
    HundredthsChars(c, w);
    RemoveAllAbsent(FormatHundredths(c, w), ",");
    ParseHundredths(c, w);
  }

  /** An image whose text holds one dollar match and one kWh match that
      convert is accepted with exactly those two values; with
      `MoneyValueOfNumeral` and `KwhValueOfNumeral`, "$12.95" and "34.90 kWh"
      give 12.95 and 34.9. */
  lemma SingleReadingAccepted(h: string, exif: map<int, string>, text: string,
                              money: string, kwh: string, amount: real, kwhValue: real)
    requires MoneyValue(money) == Some(amount) && KwhValue(kwh) == Some(kwhValue)
    ensures Decide(ExtractCandidates(Scanned(h, exif, text, [money], [kwh], None, None)))
            == Accepted(amount, kwhValue)
  {
    SingleReadingCandidates(h, exif, text, money, kwh, amount, kwhValue);
    DecideSingle(amount, kwhValue);
  }

  lemma SingleReadingCandidates(h: string, exif: map<int, string>, text: string,
                                money: string, kwh: string, amount: real, kwhValue: real)
    requires MoneyValue(money) == Some(amount) && KwhValue(kwh) == Some(kwhValue)
    ensures ExtractCandidates(Scanned(h, exif, text, [money], [kwh], None, None))
            == Candidates(Some([amount]), Some([kwhValue]))
  {
    ConvertOne(money, MoneyValue, amount);
    ConvertOne(kwh, KwhValue, kwhValue);
  }

  /** A single match that converts gives a one-value list. */
  lemma ConvertOne(m: string, convert: string -> Option<real>, v: real)
    requires convert(m) == Some(v)
    ensures ConvertAll([m], convert) == Some([v])
  {
    assert [m][0] == m && [m][1..] == [];
    assert [v] + [] == [v];
  }

  lemma DecideSingle(amount: real, kwhValue: real)
    ensures Decide(Candidates(Some([amount]), Some([kwhValue]))) == Accepted(amount, kwhValue)
  {
  }
}
