/** Caller identity in `app.py`: phone-number normalisation, the allow-list
    read from the environment, and the administrator test. */
module Phones {
  import opened Common

  /** `ADMIN_ADD_USER`: the identity that administrator submissions and
      manual entries are credited to. */
  const AdminAddUser: Phone := "+18179296991"

  /** The `ADMIN_PHONE` default used when the variable is unset. */
  const DefaultAdminPhone: Phone := "+19402109661"

  /** The configuration the handlers read from the environment once, at start-up. */
  datatype Config = Config(adminPhone: Phone, whitelist: seq<Phone>)

  /** `[phone.strip() for phone in pieces if phone.strip()]`. */
  function StrippedNonEmpty(pieces: seq<string>): (ps: seq<Phone>)
    ensures |ps| <= |pieces|
  {
    if pieces == [] then []
    else
      var p := Strip(pieces[0]);
      (if p != [] then [p] else []) + StrippedNonEmpty(pieces[1..])
  }

  predicate Trimmed(p: Phone)
  {
    p != [] && !IsSpace(p[0]) && !IsSpace(p[|p| - 1])
  }

  /** Stripping cannot introduce a comma. */
  lemma StripNoComma(s: string)
    requires ',' !in s
    ensures ',' !in Strip(s)
  {
  }

  /** Every allow-list entry is non-empty, has no surrounding whitespace and
      contains no comma. */
  lemma {:induction false} StrippedNonEmptyEntries(pieces: seq<string>)
    requires forall i :: 0 <= i < |pieces| ==> ',' !in pieces[i]
    ensures forall e :: e in StrippedNonEmpty(pieces) ==> Trimmed(e) && ',' !in e
  {
    if pieces != [] {
      StrippedNonEmptyEntries(pieces[1..]);
      StripNoComma(pieces[0]);
    }
  }

  /** `WHITELIST_NUMBERS` split on commas, each entry stripped, empty entries
      dropped; an unset variable reads as the empty string. Every entry is
      non-empty, has no surrounding whitespace and contains no comma, and
      there are at most as many entries as comma-separated pieces. */
  function ParseWhitelist(env: Option<string>): (ps: seq<Phone>)
    ensures forall e :: e in ps ==> Trimmed(e) && ',' !in e
    ensures |ps| <= Count(if env.Some? then env.value else "", ',') + 1
  {
    var s := if env.Some? then env.value else "";
    StrippedNonEmptyEntries(SplitOn(s, ','));
    SplitOnPieces(s, ',');
    StrippedNonEmpty(SplitOn(s, ','))
  }

  /** A trimmed entry is its own `strip()`. */
  lemma StripTrimmed(e: string)
    requires Trimmed(e)
    ensures Strip(e) == e
  {
    assert !IsSpace(e[0]) && !IsSpace(e[|e| - 1]);
  }

  lemma {:induction false} StrippedNonEmptyTrimmed(es: seq<Phone>)
    requires forall i :: 0 <= i < |es| ==> Trimmed(es[i])
    ensures StrippedNonEmpty(es) == es
  {
    if es != [] {
      StripTrimmed(es[0]);
      StrippedNonEmptyTrimmed(es[1..]);
      assert es == [es[0]] + es[1..];
    }
  }

  /** Every listed number is kept: a `WHITELIST_NUMBERS` written as the
      numbers joined by commas parses back to exactly those numbers, in
      order. */
  lemma ParseWhitelistRoundTrip(es: seq<Phone>)
    requires forall i :: 0 <= i < |es| ==> Trimmed(es[i]) && ',' !in es[i]
    ensures ParseWhitelist(Some(Join(es, ','))) == es
  {
    if es == [] {
      assert SplitOn([], ',') == [[]];
    } else {
      SplitOnJoin(es, ',');
      StrippedNonEmptyTrimmed(es);
    }
  }

  /** The configuration `app.py` reads once, at start-up: `ADMIN_PHONE`,
      with the built-in number when it is unset, and the allow-list parsed
      from `WHITELIST_NUMBERS`. The handlers receive it as a parameter. */
  function ConfigFromEnv(adminEnv: Option<string>, whitelistEnv: Option<string>): (c: Config)
    ensures c.adminPhone == (if adminEnv.Some? then adminEnv.value else DefaultAdminPhone)
    ensures c.whitelist == ParseWhitelist(whitelistEnv)
    ensures forall e :: e in c.whitelist ==> Trimmed(e) && ',' !in e
  {
    Config(if adminEnv.Some? then adminEnv.value else DefaultAdminPhone, ParseWhitelist(whitelistEnv))
  }

  /** With neither variable set, every number is admitted, the built-in
      number is the administrator, and `ADMIN_ADD_USER`, the phone that
      administrator submissions are credited to, is not. */
  lemma UnsetEnvironment(phone: Phone)
    ensures IsWhitelisted(ConfigFromEnv(None, None).whitelist, phone)
    ensures IsAdmin(ConfigFromEnv(None, None), DefaultAdminPhone)
    ensures !IsAdmin(ConfigFromEnv(None, None), AdminAddUser)
  {
    BlankEnvFailsOpen(None, phone);
    assert DefaultAdminPhone[2] != AdminAddUser[2];
  }

  predicate OnlySeparators(s: string)
  {
    forall k :: 0 <= k < |s| ==> s[k] == ',' || IsSpace(s[k])
  }

  /** Splitting a string of commas and whitespace leaves only whitespace pieces. */
  lemma {:induction false} SplitOnSeparatorsOnly(s: string)
    requires OnlySeparators(s)
    ensures forall i :: 0 <= i < |SplitOn(s, ',')| ==> AllSpace(SplitOn(s, ',')[i])
  {
    if s != [] {
      SplitOnSeparatorsOnly(s[1..]);
      var rest := SplitOn(s[1..], ',');
      if s[0] != ',' {
        assert AllSpace([s[0]] + rest[0]);
      }
    }
  }

  lemma {:induction false} StrippedBlanks(pieces: seq<string>)
    requires forall i :: 0 <= i < |pieces| ==> AllSpace(pieces[i])
    ensures StrippedNonEmpty(pieces) == []
  {
    if pieces != [] {
      StrippedBlanks(pieces[1..]);
    }
  }

  /** A `WHITELIST_NUMBERS` that is unset, empty, or made only of commas and
      whitespace yields an empty allow-list, which lets everyone in. */
  lemma BlankEnvFailsOpen(env: Option<string>, phone: Phone)
    requires env.Some? ==> OnlySeparators(env.value)
    ensures ParseWhitelist(env) == []
    ensures IsWhitelisted(ParseWhitelist(env), phone)
  {
    var s := if env.Some? then env.value else "";
    SplitOnSeparatorsOnly(s);
    StrippedBlanks(SplitOn(s, ','));
  }

  /** `is_whitelisted`: an empty allow-list admits every number (fail-open);
      otherwise exact membership. */
  predicate IsWhitelisted(whitelist: seq<Phone>, phone: Phone)
  {
    whitelist == [] || phone in whitelist
  }

  /** `is_admin`: exact comparison with `ADMIN_PHONE`. */
  predicate IsAdmin(config: Config, phone: Phone)
  {
    phone == config.adminPhone
  }

  /** `normalize_phone`. Despite its claim of E.164, it only counts digits:
      ten digits get the `+1` prefix (even after a `+`), any other digit
      count without a leading `+` gets a bare `+` before the digits, and a
      number that already starts with `+` is otherwise kept as written. */
  function NormalizePhone(phone: string): (r: Phone)
    ensures |r| > 0 && r[0] == '+'
    ensures |Digits(phone)| == 10 ==> r == "+1" + Digits(phone)
    ensures |Digits(phone)| != 10 && !StartsWith(phone, "+") ==> r == "+" + Digits(phone)
    ensures |Digits(phone)| != 10 && StartsWith(phone, "+") ==> r == phone
  {
    var digits := Digits(phone);
    if |digits| == 10 then "+1" + digits
    else if |digits| >= 11 && !StartsWith(phone, "+") then "+" + digits
    else if StartsWith(phone, "+") then phone
    else "+" + digits
  }

  lemma DigitsAfterPrefix(prefix: string, digits: string)
    requires AllDigits(digits)
    ensures Digits(prefix + digits) == Digits(prefix) + digits
  {
    DigitsAppend(prefix, digits);
    DigitsOfDigits(digits);
  }

  /** Normalisation never loses a digit: the result carries the input's
      digits, preceded by a `1` exactly in the ten-digit case. */
  lemma NormalizeKeepsDigits(phone: string)
    ensures |Digits(phone)| == 10 ==> Digits(NormalizePhone(phone)) == "1" + Digits(phone)
    ensures |Digits(phone)| != 10 ==> Digits(NormalizePhone(phone)) == Digits(phone)
  {
    var d := Digits(phone);
    if |d| == 10 {
      DigitsAfterPrefix("+1", d);
    } else if !StartsWith(phone, "+") {
      DigitsAfterPrefix("+", d);
    }
  }

  /** Normalising a normalised number changes nothing. */
  lemma NormalizeIdempotent(phone: string)
    ensures NormalizePhone(NormalizePhone(phone)) == NormalizePhone(phone)
  {
    var r := NormalizePhone(phone);
    NormalizeKeepsDigits(phone);
    assert StartsWith(r, "+");
  }
}
