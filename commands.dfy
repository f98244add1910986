/** Parsing of text messages into the closed set of commands `app.py`
    understands: the user commands of `handle_user_command` and the
    administrator commands of `handle_admin_command`. Text is trimmed and
    lower-cased, then matched exactly. */
module Commands {
  import opened Common
  import opened Numerals
  import opened Phones

  datatype UserCommand = GetTotal | GetLastTotal | GetAll | UnknownUserCommand

  datatype AdminCommand =
    | Backup
    | Add(kwh: real, amount: real)
    | AddUsage
    | Status
    | User(phone: Phone)
    | UnknownAdminCommand

  /** `message_body.strip().lower()` */
  function Normalized(body: string): string
  {
    Lower(Strip(body))
  }

  /** The exact-match table of the user commands. */
  function UserCommandOf(command: string): UserCommand
  {
    if command == "get total" then GetTotal
    else if command == "get last total" then GetLastTotal
    else if command == "get all" then GetAll
    else UnknownUserCommand
  }

  function ParseUserCommand(body: string): UserCommand
  {
    UserCommandOf(Normalized(body))
  }

  /** The arguments of `add`: `command.replace('add ', '').strip().split()`. */
  function AddArguments(command: string): seq<string>
  {
    Words(Strip(RemoveAll(command, "add ")))
  }

  /** `add <kWh> <amount>`: at least two tokens, the first read with `float`
      as the kWh value and the second as the amount, any further tokens
      ignored; otherwise the usage reply. */
  function ParseAdd(command: string): (c: AdminCommand)
    ensures c.Add? || c == AddUsage
    ensures c.Add? <==> |AddArguments(command)| >= 2
                        && ParseDecimal(AddArguments(command)[0]).Some?
                        && ParseDecimal(AddArguments(command)[1]).Some?
    ensures c.Add? ==> ParseDecimal(AddArguments(command)[0]) == Some(c.kwh)
                       && ParseDecimal(AddArguments(command)[1]) == Some(c.amount)
  {
    var parts := AddArguments(command);
    if |parts| >= 2 then
      match (ParseDecimal(parts[0]), ParseDecimal(parts[1]))
      case (Some(kwh), Some(amount)) => Add(kwh, amount)
      case _ => AddUsage
    else AddUsage
  }

  /** `handle_admin_command`'s branches in their order: "backup", a command
      starting with "add ", "status", a command starting with "user ". */
  function ParseAdminCommand(body: string): AdminCommand
  {
    var command := Normalized(body);
    if command == "backup" then Backup
    else if StartsWith(command, "add ") then ParseAdd(command)
    else if command == "status" then Status
    else if StartsWith(command, "user ") then User(NormalizePhone(Strip(RemoveAll(command, "user "))))
    else UnknownAdminCommand
  }

  /** The administrator commands are tried in a fixed order, and the
      prefixes "add " and "user " cannot both match: every normalised text
      falls into exactly one branch. */
  lemma AdminCommandBranches(body: string)
    ensures var command, c := Normalized(body), ParseAdminCommand(body);
            && (c == Backup <==> command == "backup")
            && (c.Add? || c == AddUsage <==> StartsWith(command, "add "))
            && (c == Status <==> command == "status")
            && (c.User? <==> StartsWith(command, "user "))
            && (c.User? ==> c.phone == NormalizePhone(Strip(RemoveAll(command, "user "))))
            && (c == UnknownAdminCommand <==>
                  command !in {"backup", "status"} && !StartsWith(command, "add ") && !StartsWith(command, "user "))
  {
    var command := Normalized(body);
    if StartsWith(command, "add ") {
      assert command[0] == 'a';
    }
    if StartsWith(command, "user ") {
      assert command[0] == 'u';
    }
  }

  /** A user text is one of the three exact commands or unknown. */
  lemma UserCommandBranches(body: string)
    ensures var command, c := Normalized(body), ParseUserCommand(body);
            && (c == GetTotal <==> command == "get total")
            && (c == GetLastTotal <==> command == "get last total")
            && (c == GetAll <==> command == "get all")
            && (c == UnknownUserCommand <==> command !in {"get total", "get last total", "get all"})
  {
  }

  // ---------------------------------------------------------------------
  // Billing periods

  /** `(now - relativedelta(months=1)).strftime('%Y-%m')`: the calendar month
      before, December of the year before for January. */
  function PreviousMonth(m: YearMonth): (p: YearMonth)
    requires 1 <= m.month <= 12
    ensures 1 <= p.month <= 12
    ensures Before(p, m)
    ensures m.month == 1 ==> p == YearMonth(m.year - 1, 12)
  {
    if m.month == 1 then YearMonth(m.year - 1, 12) else YearMonth(m.year, m.month - 1)
  }

  function NextMonth(m: YearMonth): YearMonth
  {
    if m.month == 12 then YearMonth(m.year + 1, 1) else YearMonth(m.year, m.month + 1)
  }

  /** "Last month" is the month immediately before: no billing period lies
      strictly between the two, and the next month after it is the current one. */
  lemma PreviousMonthIsAdjacent(m: YearMonth, q: YearMonth)
    requires 1 <= m.month <= 12 && 1 <= q.month <= 12
    ensures NextMonth(PreviousMonth(m)) == m
    ensures !(Before(PreviousMonth(m), q) && Before(q, m))
  {
  }

  // ---------------------------------------------------------------------
  // Trimming and case

  lemma {:induction false} TrimEndPadded(w: string, post: string)
    requires AllSpace(post)
    requires w == [] || !IsSpace(w[|w| - 1])
    ensures TrimEnd(w + post) == w
  {
    if post != [] {
      var init := post[..|post| - 1];
      assert (w + post)[..|w + post| - 1] == w + init;
      TrimEndPadded(w, init);
    } else {
      assert w + post == w;
    }
  }

  /** `strip()` removes exactly the surrounding whitespace. */
  lemma StripPadded(pre: string, w: string, post: string)
    requires AllSpace(pre) && AllSpace(post)
    requires w != [] && !IsSpace(w[0]) && !IsSpace(w[|w| - 1])
    ensures Strip(pre + w + post) == w
  {
    assert pre + w + post == pre + (w + post);
    TrimStartPadded(pre, w + post);
    TrimEndPadded(w, post);
  }

  /** Commands are matched after trimming and lower-casing: surrounding
      whitespace and letter case do not matter. */
  lemma UserCommandIgnoresCaseAndPadding(pre: string, w: string, post: string)
    requires AllSpace(pre) && AllSpace(post)
    requires w != [] && !IsSpace(w[0]) && !IsSpace(w[|w| - 1])
    ensures ParseUserCommand(pre + w + post) == UserCommandOf(Lower(w))
  {
    StripPadded(pre, w, post);
  }

  // ---------------------------------------------------------------------
  // `add <kWh> <amount>`

  predicate Numeral(s: string)
  {
    s != [] && forall k :: 0 <= k < |s| ==> IsDigit(s[k]) || s[k] == '.'
  }

  lemma SingleWord(y: string)
    requires Numeral(y)
    ensures Words(y) == [y]
  {
    TrimStartPadded([], y);
    assert [] + y == y;
    WordLengthWhole(y);
    assert y[..|y|] == y && y[|y|..] == [];
  }

  lemma SpaceThenWord(y: string)
    requires Numeral(y)
    ensures Words(" " + y) == [y]
  {
    TrimStartPadded(" ", y);
    SingleWord(y);
  }

  /** "x y" splits into the two words x and y. */
  lemma TwoWords(x: string, y: string)
    requires Numeral(x) && Numeral(y)
    ensures Words(x + " " + y) == [x, y]
  {
    NumeralNoSpace(x);
    var post := " " + y;
    assert AllSpace([]) && IsSpace(post[0]);
    WordsCons([], x, post);
    Regroup(x, " ", y);
    SpaceThenWord(y);
  }

  /** "x y" bracketed as `WordsCons` reads it. */
  lemma Regroup(x: string, sep: string, y: string)
    ensures [] + x + (sep + y) == x + sep + y
  {
    assert [] + x == x;
  }

  lemma NumeralNoSpace(x: string)
    requires Numeral(x)
    ensures !HasSpace(x)
  {
    forall k | 0 <= k < |x|
      ensures !IsSpace(x[k])
    {
      assert IsDigit(x[k]) || x[k] == '.';
    }
  }

  lemma LowerUnchanged(s: string)
    requires Numeral(s)
    ensures Lower(s) == s
  {
  }

  lemma LowerFixed(s: string)
    requires forall k :: 0 <= k < |s| ==> LowerChar(s[k]) == s[k]
    ensures Lower(s) == s
  {
  }

  lemma AddBodyLower(x: string, y: string)
    requires Numeral(x) && Numeral(y)
    ensures Lower("add " + x + " " + y) == "add " + x + " " + y
  {
    var body := "add " + x + " " + y;
    forall k | 0 <= k < |body| ensures LowerChar(body[k]) == body[k] {
      if k >= 4 + |x| + 1 {
        assert body[k] == y[k - 5 - |x|];
      } else if 4 <= k < 4 + |x| {
        assert body[k] == x[k - 4];
      }
    }
    LowerFixed(body);
  }

  lemma AddBodyStripped(x: string, y: string)
    requires Numeral(x) && Numeral(y)
    ensures Strip("add " + x + " " + y) == "add " + x + " " + y
  {
    var body := "add " + x + " " + y;
    StripPadded([], body, []);
    assert [] + body + [] == body;
  }

  lemma AddBodyNormalized(x: string, y: string)
    requires Numeral(x) && Numeral(y)
    ensures Normalized("add " + x + " " + y) == "add " + x + " " + y
  {
    AddBodyStripped(x, y);
    AddBodyLower(x, y);
  }

  lemma NumeralsHaveNoA(x: string, y: string)
    requires Numeral(x) && Numeral(y)
    ensures 'a' !in x + " " + y
  {
    var args := x + " " + y;
    forall k | 0 <= k < |args| ensures args[k] != 'a' {
      if k > |x| {
        assert args[k] == y[k - |x| - 1];
      } else if k < |x| {
        assert args[k] == x[k];
      }
    }
  }

  /** Removing "add " from "add x y" leaves "x y". */
  lemma AddPrefixRemoved(x: string, y: string)
    requires Numeral(x) && Numeral(y)
    ensures RemoveAll("add " + x + " " + y, "add ") == x + " " + y
  {
    var args := x + " " + y;
    var body := "add " + x + " " + y;
    assert body == "add " + args;
    assert body[..4] == "add " && body[4..] == args;
    NumeralsHaveNoA(x, y);
    RemoveAllAbsent(args, "add ");
  }

  lemma ArgsStripped(x: string, y: string)
    requires Numeral(x) && Numeral(y)
    ensures Strip(x + " " + y) == x + " " + y
  {
    var args := x + " " + y;
    StripPadded([], args, []);
    assert [] + args + [] == args;
  }

  lemma AddArgumentsOfBody(x: string, y: string)
    requires Numeral(x) && Numeral(y)
    ensures AddArguments("add " + x + " " + y) == [x, y]
  {
    AddPrefixRemoved(x, y);
    ArgsStripped(x, y);
    TwoWords(x, y);
  }

  lemma ParseAddOf(command: string, x: string, y: string, kwh: real, amount: real)
    requires AddArguments(command) == [x, y]
    requires ParseDecimal(x) == Some(kwh) && ParseDecimal(y) == Some(amount)
    ensures ParseAdd(command) == Add(kwh, amount)
  {
  }

  lemma AdminAddBranch(body: string)
    requires Normalized(body) != "backup" && StartsWith(Normalized(body), "add ")
    ensures ParseAdminCommand(body) == ParseAdd(Normalized(body))
  {
  }

  lemma AddBodyIsAdd(x: string, y: string)
    requires Numeral(x) && Numeral(y)
    ensures "add " + x + " " + y != "backup" && StartsWith("add " + x + " " + y, "add ")
  {
    var body := "add " + x + " " + y;
    assert body[..4] == "add ";
    assert body[0] != "backup"[0];
  }

  /** "add x y" with two numerals that `float` accepts is the manual entry
      of kWh x and amount y. */
  lemma AddOfNumerals(x: string, y: string, kwh: real, amount: real)
    requires Numeral(x) && Numeral(y)
    requires ParseDecimal(x) == Some(kwh) && ParseDecimal(y) == Some(amount)
    ensures ParseAdminCommand("add " + x + " " + y) == Add(kwh, amount)
  {
    var body := "add " + x + " " + y;
    AddBodyNormalized(x, y);
    AddBodyIsAdd(x, y);
    AdminAddBranch(body);
    AddArgumentsOfBody(x, y);
    ParseAddOf(body, x, y, kwh, amount);
  }

  /** An amount written with two decimals ("34.90", "12.95") is a numeral
      that `float` reads as its value, so it can stand for x or y in
      `AddOfNumerals`. */
  lemma HundredthsNumeral(c: nat, w: nat)
    requires c / 100 < Pow10(w)
    ensures Numeral(FormatHundredths(c, w))
    ensures ParseDecimal(FormatHundredths(c, w)) == Some(c as real / 100.0)
  {
    HundredthsChars(c, w);
    ParseHundredths(c, w);
  }
}
