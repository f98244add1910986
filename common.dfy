/** Values shared by the ledger and the request handlers: optional values,
    billing periods, and the few Python string operations the handlers rely on
    (`str.strip`, `str.lower`, `str.split`, `str.replace`, `str.startswith`). */
module Common {

  datatype Option<+T> = None | Some(value: T)

  type Phone = string

  /** A billing period, rendered by the source as `strftime('%Y-%m')`. */
  datatype YearMonth = YearMonth(year: int, month: int)

  /** Chronological order of billing periods. For four-digit years it agrees
      with the lexicographic order of their `%Y-%m` strings. */
  predicate Before(a: YearMonth, b: YearMonth)
  {
    a.year < b.year || (a.year == b.year && a.month < b.month)
  }

  lemma BeforeIsStrictTotalOrder(a: YearMonth, b: YearMonth, c: YearMonth)
    ensures !Before(a, a)
    ensures Before(a, b) ==> !Before(b, a)
    ensures Before(a, b) && Before(b, c) ==> Before(a, c)
    ensures a != b ==> Before(a, b) || Before(b, a)
  {
  }

  // ---------------------------------------------------------------------
  // Characters

  predicate IsDigit(c: char)
  {
    '0' <= c <= '9'
  }

  /** The characters Python's `str.isspace` accepts, i.e. what `strip()` and
      `split()` without arguments treat as whitespace. */
  predicate IsSpace(c: char)
  {
    ('\t' <= c <= '\r') || ('\U{1c}' <= c <= '\U{1f}') || c == ' '
    || c == '\U{85}' || c == '\U{a0}' || c == '\U{1680}'
    || ('\U{2000}' <= c <= '\U{200a}') || c == '\U{2028}' || c == '\U{2029}'
    || c == '\U{202f}' || c == '\U{205f}' || c == '\U{3000}'
  }

  function LowerChar(c: char): char
  {
    if 'A' <= c <= 'Z' then (c as int + 32) as char else c
  }

  /** `str.lower()` on ASCII letters. */
  function Lower(s: string): (r: string)
    ensures |r| == |s|
    ensures forall i :: 0 <= i < |s| ==> r[i] == LowerChar(s[i])
  {
    if s == [] then [] else [LowerChar(s[0])] + Lower(s[1..])
  }

  lemma LowerIdempotent(s: string)
    ensures Lower(Lower(s)) == Lower(s)
  {
  }

  // ---------------------------------------------------------------------
  // Digits of a string: `re.sub(r'\D', '', s)`

  function Digits(s: string): (d: string)
    ensures forall i :: 0 <= i < |d| ==> IsDigit(d[i])
    ensures |d| <= |s|
  {
    if s == [] then [] else (if IsDigit(s[0]) then [s[0]] else []) + Digits(s[1..])
  }

  predicate AllDigits(s: string)
  {
    forall i :: 0 <= i < |s| ==> IsDigit(s[i])
  }

  lemma {:induction false} DigitsAppend(a: string, b: string)
    ensures Digits(a + b) == Digits(a) + Digits(b)
  {
    if a == [] {
      assert a + b == b;
    } else {
      assert (a + b)[1..] == a[1..] + b;
      DigitsAppend(a[1..], b);
    }
  }

  lemma {:induction false} DigitsOfDigits(s: string)
    requires AllDigits(s)
    ensures Digits(s) == s
  {
    if s != [] {
      DigitsOfDigits(s[1..]);
    }
  }

  // ---------------------------------------------------------------------
  // `str.strip()`

  function TrimStart(s: string): (r: string)
    ensures |r| <= |s| && r == s[|s| - |r|..]
    ensures r != [] ==> !IsSpace(r[0])
    ensures forall i :: 0 <= i < |s| - |r| ==> IsSpace(s[i])
  {
    if s != [] && IsSpace(s[0]) then TrimStart(s[1..]) else s
  }

  function TrimEnd(s: string): (r: string)
    ensures |r| <= |s| && r == s[..|r|]
    ensures r != [] ==> !IsSpace(r[|r| - 1])
    ensures forall i :: |r| <= i < |s| ==> IsSpace(s[i])
  {
    if s != [] && IsSpace(s[|s| - 1]) then TrimEnd(s[..|s| - 1]) else s
  }

  /** How many leading whitespace characters `strip()` removes. */
  function LeadingSpaces(s: string): nat
  {
    |s| - |TrimStart(s)|
  }

  /** `str.strip()`: the slice of `s` left after cutting whitespace off both
      ends; it neither starts nor ends with whitespace, and everything cut off
      is whitespace. */
  function Strip(s: string): (r: string)
    ensures r != [] ==> !IsSpace(r[0]) && !IsSpace(r[|r| - 1])
    ensures LeadingSpaces(s) + |r| <= |s|
    ensures r == s[LeadingSpaces(s)..LeadingSpaces(s) + |r|]
    ensures forall k :: 0 <= k < LeadingSpaces(s) ==> IsSpace(s[k])
    ensures forall k :: LeadingSpaces(s) + |r| <= k < |s| ==> IsSpace(s[k])
  {
    var t := TrimStart(s);
    var r := TrimEnd(t);
    assert r == s[|s| - |t|..|s| - |t| + |r|];
    r
  }

  /** Stripping is idempotent. */
  lemma StripIdempotent(s: string)
    ensures Strip(Strip(s)) == Strip(s)
  {
  }

  // ---------------------------------------------------------------------
  // `str.startswith` and `str.replace(pat, '')`

  predicate StartsWith(s: string, p: string)
  {
    |p| <= |s| && s[..|p|] == p
  }

  /** `s.replace(pat, '')`: every non-overlapping occurrence of `pat`, scanning
      from the left, is deleted. */
  function RemoveAll(s: string, pat: string): (r: string)
    requires pat != []
    ensures |r| <= |s|
    decreases |s|
  {
    if |s| < |pat| then s
    else if s[..|pat|] == pat then RemoveAll(s[|pat|..], pat)
    else [s[0]] + RemoveAll(s[1..], pat)
  }

  /** A string in which `pat` cannot start is left as it is. */
  lemma {:induction false} RemoveAllAbsent(s: string, pat: string)
    requires pat != [] && pat[0] !in s
    ensures RemoveAll(s, pat) == s
  {
    if |s| >= |pat| {
      assert s[..|pat|][0] == s[0];
      RemoveAllAbsent(s[1..], pat);
    }
  }

  /** Removing a single character works piece by piece: every other
      character is kept, in order. */
  lemma {:induction false} RemoveAllConcat(a: string, b: string, c: char)
    ensures RemoveAll(a + b, [c]) == RemoveAll(a, [c]) + RemoveAll(b, [c])
    decreases |a|
  {
    if a == [] {
      assert a + b == b;
    } else {
      assert (a + b)[..1] == [a[0]] && a[..1] == [a[0]];
      assert (a + b)[1..] == a[1..] + b;
      RemoveAllConcat(a[1..], b, c);
      if a[0] != c {
        assert [a[0]] + RemoveAll(a[1..], [c]) + RemoveAll(b, [c])
            == [a[0]] + (RemoveAll(a[1..], [c]) + RemoveAll(b, [c]));
      }
    }
  }

  /** Removing `c` drops a `c` wherever it stands. */
  lemma RemoveAllDrops(a: string, b: string, c: char)
    ensures RemoveAll(a + [c] + b, [c]) == RemoveAll(a + b, [c])
  {
    RemoveAllConcat(a + [c], b, c);
    RemoveAllConcat(a, [c], c);
    RemoveAllConcat(a, b, c);
    assert [c][..1] == [c] && [c][1..] == [];
    assert RemoveAll(a, [c]) + [] == RemoveAll(a, [c]);
  }

  /** Removing `c` keeps any other character where it stands. */
  lemma RemoveAllKeepsOther(a: string, b: string, c: char, d: char)
    requires c != d
    ensures RemoveAll(a + [d] + b, [c]) == RemoveAll(a, [c]) + [d] + RemoveAll(b, [c])
  {
    RemoveAllConcat(a + [d], b, c);
    RemoveAllConcat(a, [d], c);
    assert [d][..1] != [c] && [d][1..] == [];
  }

  /** Removing occurrences of `pat` introduces no character. */
  lemma {:induction false} RemoveAllKeeps(s: string, pat: string, c: char)
    requires pat != [] && c in RemoveAll(s, pat)
    ensures c in s
    decreases |s|
  {
    if |s| >= |pat| {
      if s[..|pat|] == pat {
        RemoveAllKeeps(s[|pat|..], pat, c);
        assert s[|pat|..] == s[|pat|..][..];
      } else if c != s[0] {
        RemoveAllKeeps(s[1..], pat, c);
      }
    }
  }

  // ---------------------------------------------------------------------
  // `str.split()` without arguments and `str.split(',')`

  /** The first word of `s` (a non-empty run of non-whitespace), when there is one. */
  function WordLength(s: string): (n: nat)
    ensures n <= |s|
    ensures forall k :: 0 <= k < n ==> !IsSpace(s[k])
    ensures n < |s| ==> IsSpace(s[n])
  {
    if s == [] || IsSpace(s[0]) then 0 else 1 + WordLength(s[1..])
  }

  /** `s.split()`: the maximal runs of non-whitespace characters, in order.
      `WordsEmpty` says when there are none, `WordsCons` fixes them one by
      one, and `WordsKeepNonSpace` says that together they hold every
      non-whitespace character of `s`. */
  function Words(s: string): (ws: seq<string>)
    ensures forall i :: 0 <= i < |ws| ==> ws[i] != [] && !HasSpace(ws[i])
    decreases |s|
  {
    var t := TrimStart(s);
    if t == [] then []
    else
      var n := WordLength(t);
      FirstWord(t);
      var rest := Words(t[n..]);
      ConsWords(t[..n], rest);
      [t[..n]] + rest
  }

  lemma {:induction false} TrimStartPadded(pre: string, w: string)
    requires AllSpace(pre)
    requires w == [] || !IsSpace(w[0])
    ensures TrimStart(pre + w) == w
  {
    if pre != [] {
      assert (pre + w)[1..] == pre[1..] + w;
      TrimStartPadded(pre[1..], w);
    } else {
      assert pre + w == w;
    }
  }

  lemma {:induction false} WordLengthOfWord(w: string, rest: string)
    requires forall k :: 0 <= k < |w| ==> !IsSpace(w[k])
    requires rest != [] && IsSpace(rest[0])
    ensures WordLength(w + rest) == |w|
  {
    if w != [] {
      assert (w + rest)[1..] == w[1..] + rest;
      WordLengthOfWord(w[1..], rest);
    } else {
      assert w + rest == rest;
    }
  }

  lemma WordLengthWhole(w: string)
    requires forall k :: 0 <= k < |w| ==> !IsSpace(w[k])
    ensures WordLength(w) == |w|
  {
  }

  /** A text has no words exactly when it is all whitespace. */
  lemma WordsEmpty(s: string)
    ensures Words(s) == [] <==> AllSpace(s)
  {
    var t := TrimStart(s);
    if t != [] {
      assert s[|s| - |t|] == t[0];
    }
  }

  /** One unfolding of `Words`: skip the leading whitespace, take the first
      word, continue after it. */
  lemma WordsStep(s: string)
    requires TrimStart(s) != []
    ensures WordLength(TrimStart(s)) > 0
    ensures Words(s) == [TrimStart(s)[..WordLength(TrimStart(s))]] + Words(TrimStart(s)[WordLength(TrimStart(s))..])
  {
    FirstWord(TrimStart(s));
  }

  /** After leading whitespace, a word that ends at whitespace or at the end
      of the text is the first word, and the rest are the words after it. */
  lemma WordsCons(pre: string, w: string, post: string)
    requires AllSpace(pre) && w != [] && !HasSpace(w)
    requires post == [] || IsSpace(post[0])
    ensures Words(pre + w + post) == [w] + Words(post)
  {
    assert pre + w + post == pre + (w + post);
    TrimStartPadded(pre, w + post);
    if post == [] {
      assert w + post == w;
      WordLengthWhole(w);
    } else {
      WordLengthOfWord(w, post);
    }
    assert (w + post)[..|w|] == w;
    assert (w + post)[|w|..] == post;
  }

  /** The characters of `s` that are not whitespace, in order. */
  function NonSpace(s: string): string
  {
    if s == [] then [] else (if IsSpace(s[0]) then [] else [s[0]]) + NonSpace(s[1..])
  }

  function Concat(ws: seq<string>): string
  {
    if ws == [] then [] else ws[0] + Concat(ws[1..])
  }

  lemma {:induction false} NonSpaceAppend(a: string, b: string)
    ensures NonSpace(a + b) == NonSpace(a) + NonSpace(b)
  {
    if a == [] {
      assert a + b == b;
    } else {
      assert (a + b)[1..] == a[1..] + b;
      NonSpaceAppend(a[1..], b);
    }
  }

  lemma {:induction false} NonSpaceOfSpaces(s: string)
    requires AllSpace(s)
    ensures NonSpace(s) == []
  {
    if s != [] {
      NonSpaceOfSpaces(s[1..]);
    }
  }

  lemma {:induction false} NonSpaceOfWord(w: string)
    requires !HasSpace(w)
    ensures NonSpace(w) == w
  {
    if w != [] {
      assert !IsSpace(w[0]);
      assert !HasSpace(w[1..]) by {
        forall k | 0 <= k < |w[1..]| ensures !IsSpace(w[1..][k]) {
          assert w[1..][k] == w[k + 1];
        }
      }
      NonSpaceOfWord(w[1..]);
    }
  }

  lemma NonSpaceOfTrimmed(s: string)
    ensures NonSpace(s) == NonSpace(TrimStart(s))
  {
    var t := TrimStart(s);
    var k := |s| - |t|;
    assert s == s[..k] + t;
    NonSpaceAppend(s[..k], t);
    NonSpaceOfSpaces(s[..k]);
  }

  lemma NonSpaceSplit(t: string, n: nat)
    requires n <= |t| && !HasSpace(t[..n])
    ensures NonSpace(t) == t[..n] + NonSpace(t[n..])
  {
    assert t == t[..n] + t[n..];
    NonSpaceAppend(t[..n], t[n..]);
    NonSpaceOfWord(t[..n]);
  }

  /** The words of `s`, put back together without separators, are exactly
      the non-whitespace characters of `s`: `split()` loses only whitespace. */
  lemma {:induction false} WordsKeepNonSpace(s: string)
    ensures Concat(Words(s)) == NonSpace(s)
    decreases |s|
  {
    var t := TrimStart(s);
    NonSpaceOfTrimmed(s);
    if t != [] {
      var n := WordLength(t);
      WordsStep(s);
      FirstWord(t);
      NonSpaceSplit(t, n);
      WordsKeepNonSpace(t[n..]);
      var ws := Words(s);
      assert ws[0] == t[..n] && ws[1..] == Words(t[n..]);
    }
  }

  lemma FirstWord(t: string)
    requires t != [] && !IsSpace(t[0])
    ensures WordLength(t) > 0 && !HasSpace(t[..WordLength(t)])
  {
    var n := WordLength(t);
    assert forall k :: 0 <= k < n ==> t[..n][k] == t[k];
  }

  lemma ConsWords(w: string, rest: seq<string>)
    requires w != [] && !HasSpace(w)
    requires forall i :: 0 <= i < |rest| ==> rest[i] != [] && !HasSpace(rest[i])
    ensures forall i :: 0 <= i < |[w] + rest| ==> ([w] + rest)[i] != [] && !HasSpace(([w] + rest)[i])
  {
    forall i | 0 <= i < |[w] + rest| ensures ([w] + rest)[i] != [] && !HasSpace(([w] + rest)[i]) {
      if i > 0 {
        assert ([w] + rest)[i] == rest[i - 1];
      }
    }
  }

  /** Every character is whitespace (vacuously so for the empty string). */
  predicate AllSpace(s: string)
  {
    forall k :: 0 <= k < |s| ==> IsSpace(s[k])
  }

  predicate HasSpace(s: string)
  {
    exists k :: 0 <= k < |s| && IsSpace(s[k])
  }

  /** `s.split(sep)`: the pieces between occurrences of `sep`, empty ones kept. */
  function SplitOn(s: string, sep: char): (ps: seq<string>)
    ensures |ps| >= 1
    ensures forall i :: 0 <= i < |ps| ==> sep !in ps[i]
  {
    if s == [] then [[]]
    else
      var rest := SplitOn(s[1..], sep);
      if s[0] == sep then [[]] + rest
      else [[s[0]] + rest[0]] + rest[1..]
  }

  /** `sep.join(pieces)`. */
  function Join(pieces: seq<string>, sep: char): string
  {
    if pieces == [] then []
    else if |pieces| == 1 then pieces[0]
    else pieces[0] + [sep] + Join(pieces[1..], sep)
  }

  /** A piece without the separator is glued to the first piece of what
      follows it. */
  lemma {:induction false} SplitOnWord(w: string, t: string, sep: char)
    requires sep !in w
    ensures SplitOn(w + t, sep) == [w + SplitOn(t, sep)[0]] + SplitOn(t, sep)[1..]
    decreases |w|
  {
    var ps := SplitOn(t, sep);
    if w == [] {
      assert w + t == t && w + ps[0] == ps[0];
      assert ps == [ps[0]] + ps[1..];
    } else {
      assert (w + t)[0] == w[0];
      assert (w + t)[1..] == w[1..] + t;
      SplitOnWord(w[1..], t, sep);
      assert [w[0]] + (w[1..] + SplitOn(t, sep)[0]) == w + SplitOn(t, sep)[0];
    }
  }

  /** Splitting what `Join` glued gives the pieces back, when no piece holds
      the separator. */
  lemma {:induction false} SplitOnJoin(pieces: seq<string>, sep: char)
    requires pieces != []
    requires forall i :: 0 <= i < |pieces| ==> sep !in pieces[i]
    ensures SplitOn(Join(pieces, sep), sep) == pieces
    decreases |pieces|
  {
    var w := pieces[0];
    if |pieces| == 1 {
      SplitOnWord(w, [], sep);
      assert w + [] == w;
    } else {
      var rest := Join(pieces[1..], sep);
      assert Join(pieces, sep) == w + ([sep] + rest);
      SplitOnWord(w, [sep] + rest, sep);
      assert ([sep] + rest)[1..] == rest;
      SplitOnJoin(pieces[1..], sep);
      assert SplitOn([sep] + rest, sep) == [[]] + pieces[1..];
      assert w + [] == w;
      assert pieces == [w] + pieces[1..];
    }
  }

  function Count(s: string, c: char): nat
  {
    if s == [] then 0 else (if s[0] == c then 1 else 0) + Count(s[1..], c)
  }

  /** Splitting on `sep` yields one more piece than there are separators. */
  lemma {:induction false} SplitOnPieces(s: string, sep: char)
    ensures |SplitOn(s, sep)| == Count(s, sep) + 1
  {
    if s != [] {
      SplitOnPieces(s[1..], sep);
    }
  }
}
