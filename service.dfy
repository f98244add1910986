/** The request handlers of `app.py` over the ledger store: the user and
    administrator command handlers and `handle_sms`, which routes one
    incoming message. The clock, the backup step and everything the image
    pipeline computes (OCR, EXIF, hashing, regex matches) arrive as
    parameters; replies are tags that carry the values the reply text shows. */
module Service {
  import opened Common
  import opened Ledger
  import opened Phones
  import opened Datetimes
  import opened Extraction
  import opened Commands
  import opened Reports

  datatype UserReply =
    | CurrentMonthTotal(month: YearMonth, total: real)
    | LastMonthTotal(month: YearMonth, total: real)
    | AllMonths(report: AllReport)
    | UnknownUserReply

  datatype AdminReply =
    | BackupCreated(timestamp: string)
    | BackupFailed
    | AddedManually(amount: real, kwh: real, monthTotal: real)
    | DuplicateManualEntry(amount: real, kwh: real)
    | InvalidAddFormat
    | NoTransactionsThisMonth
    | StatusReport(month: YearMonth, totals: map<Phone, real>)
    | UserHistory(report: HistoryReport)
    | UnknownAdminReply

  datatype SmsReply =
    | AccessDenied
    | NothingFound
    | MultipleAmounts(amounts: set<real>)
    | MultipleKwh(kwhs: set<real>)
    | DuplicateImage
    | DuplicateTransaction(amount: real, kwh: real)
    | Added(phone: Phone, amount: real, kwh: real, ocrTime: DateTime, exifTime: Option<DateTime>, monthTotal: real)
    | AdminText(admin: AdminReply)
    | UserText(user: UserReply)
    | SendImagePrompt

  /** The form fields of one webhook call: `From`, `Body`, `NumMedia`, and
      what the image pipeline made of `MediaUrl0`. */
  datatype SmsEvent = SmsEvent(sender: Phone, body: string, numMedia: int, media: Media)

  /** The string stored for a time: "%Y-%m-%d %H:%M:%S", or "None"; the
      stored text reads back as the time it records, and "None" reads as
      no time at all. */
  function StampOrNone(t: Option<DateTime>): (r: string)
    requires t.Some? ==> ValidDateTime(t.value)
    ensures ParseStamp(r, '-') == t
  {
    if t.Some? then
      FormatThenParse(t.value, '-');
      FormatStamp(t.value, '-')
    else "None"
  }

  /** The OCR time, with the current time standing in when no pattern gave
      a valid datetime. */
  function OcrTimeOrNow(media: Media, now: DateTime): (t: DateTime)
    requires media.Scanned? && ValidDateTime(now)
    ensures ValidDateTime(t)
  {
    var found := FirstValid(OcrCandidates(media.slashDate, media.dashDate));
    if found.Some? then found.value else now
  }

  /** Whom an accepted submission is credited to: `ADMIN_ADD_USER` when the
      administrator sends it, the sender otherwise. */
  function TransactionPhone(config: Config, sender: Phone): Phone
  {
    if IsAdmin(config, sender) then AdminAddUser else sender
  }

  // ---------------------------------------------------------------------
  // `handle_user_command`

  /** The answer to a user's text `body` over `rows`: this month's or last
      month's total for the sender, every month of the sender's history for
      "all", and the help text for anything else. */
  predicate UserAnswer(rows: seq<Row>, sender: Phone, body: string, now: YearMonth, reply: UserReply)
    requires 1 <= now.month <= 12
  {
    match ParseUserCommand(body)
    case GetTotal =>
      reply == CurrentMonthTotal(now, MonthlyTotal(rows, sender, now))
    case GetLastTotal =>
      reply == LastMonthTotal(PreviousMonth(now), MonthlyTotal(rows, sender, PreviousMonth(now)))
    case GetAll =>
      && reply.AllMonths?
      && (reply.report.NoTransactionsFound? <==> RowsOf(rows, sender) == [])
      && (reply.report.AllTotals? ==>
            && Descending(reply.report.lines)
            && LineMonths(reply.report.lines) == MonthsOf(RowsOf(rows, sender))
            && (forall i :: 0 <= i < |reply.report.lines| ==>
                  reply.report.lines[i].total == MonthlyTotal(rows, sender, reply.report.lines[i].month))
            && reply.report.grandTotal == HistorySum(RowsOf(rows, sender)))
    case UnknownUserCommand =>
      reply == UnknownUserReply
  }

  /** A user's text command over the ledger; it reads and never writes. */
  method HandleUserCommand(store: LedgerStore, sender: Phone, body: string, now: YearMonth) returns (reply: UserReply)
    requires 1 <= now.month <= 12
    ensures UserAnswer(store.amounts, sender, body, now, reply)
  {
    match ParseUserCommand(body)
    case GetTotal =>
      var total := store.GetMonthlyTotal(sender, now);
      reply := CurrentMonthTotal(now, total);
    case GetLastTotal =>
      var last := PreviousMonth(now);
      var total := store.GetMonthlyTotal(sender, last);
      reply := LastMonthTotal(last, total);
    case GetAll =>
      var totals := UserMonthTotals(store, sender);
      var report := AllMonthsReport(totals);
      MonthsOfEmpty(Reverse(RowsOf(store.amounts, sender)));
      MonthsOfReverse(RowsOf(store.amounts, sender));
      if report.AllTotals? {
        GetAllGrandTotal(store.amounts, sender, totals, report);
      }
      reply := AllMonths(report);
    case UnknownUserCommand =>
      reply := UnknownUserReply;
  }

  // ---------------------------------------------------------------------
  // `handle_admin_command`

  /** The outcome of `add <kWh> <amount>` on the rows `before`: refused as a
      duplicate when `ADMIN_ADD_USER` already has a row with this amount and
      kWh, otherwise one row for the current month is appended and the reply
      carries the new month total. */
  predicate ManualEntry(before: seq<Row>, after: seq<Row>, kwh: real, amount: real, now: DateTime, reply: AdminReply)
    requires ValidDateTime(now)
  {
    if HasTransaction(before, AdminAddUser, amount, kwh) then
      reply == DuplicateManualEntry(amount, kwh) && after == before
    else
      && after == before + [Row(AdminAddUser, MonthOf(now), amount, kwh, FormatStamp(now, '-'), "None")]
      && reply == AddedManually(amount, kwh, MonthlyTotal(before, AdminAddUser, MonthOf(now)) + amount)
  }

  /** The reply to "status" for `month`: every phone with a row that month
      except `ADMIN_PHONE`, with its total, or the empty-month reply. */
  predicate StatusFor(rows: seq<Row>, config: Config, month: YearMonth, reply: AdminReply)
  {
    if PhonesIn(rows, month) == {} then reply == NoTransactionsThisMonth
    else
      && reply.StatusReport?
      && reply.month == month
      && reply.totals.Keys == PhonesIn(rows, month) - {config.adminPhone}
      && forall p :: p in reply.totals ==> reply.totals[p] == MonthlyTotal(rows, p, month)
  }

  /** The reply to "user <phone>": the phone's rows newest first and their
      total, or the no-history reply. */
  predicate HistoryFor(rows: seq<Row>, phone: Phone, reply: AdminReply)
  {
    && reply.UserHistory?
    && reply.report.phone == phone
    && (reply.report.NoHistory? <==> RowsOf(rows, phone) == [])
    && (reply.report.History? ==>
          && reply.report.rows == Reverse(RowsOf(rows, phone))
          && reply.report.total == HistorySum(RowsOf(rows, phone)))
  }

  /** `add <kWh> <amount>` once parsed: refused as a duplicate when
      `ADMIN_ADD_USER` already has a row with this amount and kWh, otherwise
      one row for the current month and the new month total. */
  method AdminAdd(store: LedgerStore, kwh: real, amount: real, now: DateTime) returns (reply: AdminReply)
    requires store.Valid() && ValidDateTime(now)
    modifies store
    ensures store.Valid()
    ensures store.imageHashes == old(store.imageHashes)
    ensures ManualEntry(old(store.amounts), store.amounts, kwh, amount, now, reply)
  {
    var duplicate := store.CheckDuplicateTransaction(AdminAddUser, amount, kwh);
    if duplicate {
      return DuplicateManualEntry(amount, kwh);
    }
    var month := MonthOf(now);
    var row := Row(AdminAddUser, month, amount, kwh, FormatStamp(now, '-'), "None");
    store.AddAmount(row.phone, month, amount, kwh, row.ocrTime, row.exifTime);
    var total := store.GetMonthlyTotal(AdminAddUser, month);
    MonthlyTotalAppend(old(store.amounts), row, month);
    reply := AddedManually(amount, kwh, total);
  }

  /** "status": this month's total per phone, leaving out `ADMIN_PHONE`;
      a month without rows has its own reply. */
  method AdminStatus(store: LedgerStore, config: Config, month: YearMonth) returns (reply: AdminReply)
    ensures StatusFor(store.amounts, config, month, reply)
  {
    var totals := store.GetAllTotals(month);
    if totals == map[] {
      reply := NoTransactionsThisMonth;
    } else {
      reply := StatusReport(month, totals - {config.adminPhone});
    }
  }

  /** The answer to the administrator's text `body`, with the rows before
      and after: only a well-formed `add` may write (`ManualEntry`); every
      other command leaves the rows as they were. */
  predicate AdminAnswer(before: seq<Row>, after: seq<Row>, config: Config, body: string, now: DateTime,
                        backupOk: bool, reply: AdminReply)
    requires ValidDateTime(now)
  {
    match ParseAdminCommand(body)
    case Add(kwh, amount) =>
      ManualEntry(before, after, kwh, amount, now, reply)
    case Backup =>
      after == before && reply == (if backupOk then BackupCreated(FormatStamp(now, '-')) else BackupFailed)
    case AddUsage =>
      after == before && reply == InvalidAddFormat
    case Status =>
      after == before && StatusFor(before, config, MonthOf(now), reply)
    case User(phone) =>
      after == before && HistoryFor(before, phone, reply)
    case UnknownAdminCommand =>
      after == before && reply == UnknownAdminReply
  }

  /** The administrator's text command. Only a well-formed `add` that is
      not a duplicate writes, and it writes exactly one row credited to
      `ADMIN_ADD_USER` for the current month. */
  method HandleAdminCommand(store: LedgerStore, config: Config, body: string, now: DateTime, backupOk: bool)
    returns (reply: AdminReply)
    requires store.Valid() && ValidDateTime(now)
    modifies store
    ensures store.Valid()
    ensures store.imageHashes == old(store.imageHashes)
    ensures AdminAnswer(old(store.amounts), store.amounts, config, body, now, backupOk, reply)
    ensures reply.AddedManually? ==> ParseAdminCommand(body).Add?
  {
    match ParseAdminCommand(body)
    case Backup =>
      reply := if backupOk then BackupCreated(FormatStamp(now, '-')) else BackupFailed;
    case Add(kwh, amount) =>
      reply := AdminAdd(store, kwh, amount, now);
    case AddUsage =>
      reply := InvalidAddFormat;
    case Status =>
      reply := AdminStatus(store, config, MonthOf(now));
    case User(phone) =>
      var report := UserHistoryReport(store, phone);
      reply := UserHistory(report);
    case UnknownAdminCommand =>
      reply := UnknownAdminReply;
  }

  // ---------------------------------------------------------------------
  // The image branch of `handle_sms`

  /** The checks and writes after the acceptance policy has settled on one
      amount and one kWh value: the image-hash check first, then the
      duplicate-transaction check; either refusal writes nothing, and
      otherwise one hash record and then one amount row are written. */
  method RecordSubmission(store: LedgerStore, phone: Phone, hash: string, exifText: string,
                          amount: real, kwh: real, ocrTime: DateTime, exifTime: Option<DateTime>, now: DateTime)
    returns (reply: SmsReply)
    requires store.Valid() && ValidDateTime(now) && ValidDateTime(ocrTime)
    requires exifTime.Some? ==> ValidDateTime(exifTime.value)
    modifies store
    ensures store.Valid()
    ensures hash in HashesOf(old(store.imageHashes)) ==> reply == DuplicateImage
    ensures hash !in HashesOf(old(store.imageHashes)) && HasTransaction(old(store.amounts), phone, amount, kwh) ==>
              reply == DuplicateTransaction(amount, kwh)
    ensures !reply.Added? ==> store.amounts == old(store.amounts) && store.imageHashes == old(store.imageHashes)
    ensures hash !in HashesOf(old(store.imageHashes)) && !HasTransaction(old(store.amounts), phone, amount, kwh) ==>
              && reply == Added(phone, amount, kwh, ocrTime, exifTime,
                                MonthlyTotal(old(store.amounts), phone, MonthOf(now)) + amount)
              && store.imageHashes == old(store.imageHashes) + [HashRecord(hash, phone, exifText)]
              && store.amounts == old(store.amounts) + [Row(phone, MonthOf(now), amount, kwh,
                                                            FormatStamp(ocrTime, '-'), StampOrNone(exifTime))]
  {
    var seen := store.CheckImageHash(hash);
    if seen {
      return DuplicateImage;
    }
    var duplicate := store.CheckDuplicateTransaction(phone, amount, kwh);
    if duplicate {
      return DuplicateTransaction(amount, kwh);
    }
    store.AddImageHash(hash, phone, exifText);
    var month := MonthOf(now);
    var row := Row(phone, month, amount, kwh, FormatStamp(ocrTime, '-'), StampOrNone(exifTime));
    store.AddAmount(phone, month, amount, kwh, row.ocrTime, row.exifTime);
    var total := store.GetMonthlyTotal(phone, month);
    MonthlyTotalAppend(old(store.amounts), row, month);
    reply := Added(phone, amount, kwh, ocrTime, exifTime, total);
  }

  /** The answer to an image from an allowed sender, with the hash records
      and rows before and after: the acceptance policy decides first, then
      the image-hash check, then the duplicate-transaction check; every
      refusal writes nothing, and an accepted reading appends one hash
      record and one row credited to `TransactionPhone`. */
  predicate ImageAnswer(oldAmounts: seq<Row>, oldHashes: seq<HashRecord>, amounts: seq<Row>, hashes: seq<HashRecord>,
                        config: Config, sender: Phone, media: Media, now: DateTime, reply: SmsReply)
    requires ValidDateTime(now)
  {
    var d := Decide(ExtractCandidates(media));
    && (d.NotFound? <==> reply == NothingFound)
    && (d.AmbiguousAmount? <==> reply.MultipleAmounts?)
    && (reply.MultipleAmounts? ==> reply.amounts == d.amounts)
    && (d.AmbiguousKwh? <==> reply.MultipleKwh?)
    && (reply.MultipleKwh? ==> reply.kwhs == d.kwhs)
    && (reply == DuplicateImage <==>
          d.Accepted? && media.imageHash in HashesOf(oldHashes))
    && (reply.DuplicateTransaction? <==>
          && d.Accepted? && media.imageHash !in HashesOf(oldHashes)
          && HasTransaction(oldAmounts, TransactionPhone(config, sender), d.amount, d.kwh))
    && (reply.Added? <==>
          && d.Accepted? && media.imageHash !in HashesOf(oldHashes)
          && !HasTransaction(oldAmounts, TransactionPhone(config, sender), d.amount, d.kwh))
    && (!reply.Added? ==> amounts == oldAmounts && hashes == oldHashes)
    && (reply.Added? ==>
          && media.Scanned?
          && reply.phone == TransactionPhone(config, sender)
          && d == Accepted(reply.amount, reply.kwh)
          && reply.ocrTime == OcrTimeOrNow(media, now)
          && reply.exifTime == ExifTime(media.exif)
          && hashes == oldHashes + [HashRecord(media.imageHash, reply.phone, media.exifText)]
          && amounts == oldAmounts + [Row(reply.phone, MonthOf(now), reply.amount, reply.kwh,
                                          FormatStamp(reply.ocrTime, '-'), StampOrNone(reply.exifTime))]
          && reply.monthTotal == MonthlyTotal(oldAmounts, reply.phone, MonthOf(now)) + reply.amount)
  }

  /** An image from an allowed sender: the acceptance policy decides first;
      an accepted reading goes on to `RecordSubmission`, credited to
      `ADMIN_ADD_USER` when the administrator sent it. */
  method HandleImage(store: LedgerStore, config: Config, sender: Phone, media: Media, now: DateTime)
    returns (reply: SmsReply)
    requires store.Valid() && ValidDateTime(now)
    modifies store
    ensures store.Valid()
    ensures ImageAnswer(old(store.amounts), old(store.imageHashes), store.amounts, store.imageHashes,
                        config, sender, media, now, reply)
  {
    var candidates := ExtractCandidates(media);
    match Decide(candidates)
    case NotFound =>
      reply := NothingFound;
    case AmbiguousAmount(amounts) =>
      reply := MultipleAmounts(amounts);
    case AmbiguousKwh(kwhs) =>
      reply := MultipleKwh(kwhs);
    case Accepted(amount, kwh) =>
      var ocr := ExtractDatetimeFromOcr(media.slashDate, media.dashDate);
      var ocrTime := if ocr.Some? then ocr.value else now;
      var exifTime := ExtractDatetimeFromExif(media.exif);
      var phone := TransactionPhone(config, sender);
      reply := RecordSubmission(store, phone, media.imageHash, media.exifText, amount, kwh, ocrTime, exifTime, now);
  }

  /** The image-hash check is not scoped to the sender: once an image has
      been accepted, the same image is refused as a duplicate whoever sends
      it next, and the refusal writes nothing. */
  method ResubmittedImageRefused(store: LedgerStore, config: Config, first: Phone, second: Phone, media: Media, now: DateTime)
    returns (firstReply: SmsReply, secondReply: SmsReply)
    requires store.Valid() && ValidDateTime(now)
    modifies store
    ensures firstReply.Added? ==> secondReply == DuplicateImage
    ensures firstReply.Added? ==> |store.amounts| == |old(store.amounts)| + 1
  {
    firstReply := HandleImage(store, config, first, media, now);
    ghost var between := store.imageHashes;
    secondReply := HandleImage(store, config, second, media, now);
    if firstReply.Added? {
      assert HashRecord(media.imageHash, firstReply.phone, media.exifText) in between;
      assert media.imageHash in HashesOf(between);
    }
  }

  // ---------------------------------------------------------------------
  // `handle_sms`

  /** Routing of one incoming message, in the source's order: the
      allow-list, then an attached image, then a non-blank text from the
      administrator, then a non-blank text from anyone else, and otherwise
      the prompt to send an image. */
  method HandleSms(store: LedgerStore, config: Config, event: SmsEvent, now: DateTime, backupOk: bool)
    returns (reply: SmsReply)
    requires store.Valid() && ValidDateTime(now)
    modifies store
    ensures store.Valid()
    ensures !IsWhitelisted(config.whitelist, event.sender) ==> reply == AccessDenied
    ensures IsWhitelisted(config.whitelist, event.sender) && event.numMedia > 0 ==>
              reply !in {AccessDenied, SendImagePrompt} && !reply.AdminText? && !reply.UserText?
    ensures IsWhitelisted(config.whitelist, event.sender) && event.numMedia <= 0 && Strip(event.body) != [] ==>
              (reply.AdminText? <==> IsAdmin(config, event.sender)) && (reply.UserText? <==> !IsAdmin(config, event.sender))
    ensures IsWhitelisted(config.whitelist, event.sender) && event.numMedia <= 0 && Strip(event.body) == [] ==>
              reply == SendImagePrompt
    ensures reply.UserText? ==> (reply.user == UnknownUserReply <==> ParseUserCommand(event.body) == UnknownUserCommand)
    ensures reply.AdminText? ==> (reply.admin == UnknownAdminReply <==> ParseAdminCommand(event.body) == UnknownAdminCommand)
    ensures !reply.Added? ==> store.imageHashes == old(store.imageHashes)
    ensures !reply.Added? && !(reply.AdminText? && reply.admin.AddedManually?) ==> store.amounts == old(store.amounts)
    ensures IsWhitelisted(config.whitelist, event.sender) && event.numMedia > 0 ==>
              ImageAnswer(old(store.amounts), old(store.imageHashes), store.amounts, store.imageHashes,
                          config, event.sender, event.media, now, reply)
    ensures IsWhitelisted(config.whitelist, event.sender) && event.numMedia <= 0 && Strip(event.body) != [] &&
            IsAdmin(config, event.sender) ==>
              && reply.AdminText?
              && store.imageHashes == old(store.imageHashes)
              && AdminAnswer(old(store.amounts), store.amounts, config, event.body, now, backupOk, reply.admin)
    ensures IsWhitelisted(config.whitelist, event.sender) && event.numMedia <= 0 && Strip(event.body) != [] &&
            !IsAdmin(config, event.sender) ==>
              && reply.UserText?
              && store.amounts == old(store.amounts) && store.imageHashes == old(store.imageHashes)
              && UserAnswer(store.amounts, event.sender, event.body, MonthOf(now), reply.user)
    ensures reply.Added? ==>
              && event.media.Scanned?
              && store.imageHashes == old(store.imageHashes) + [HashRecord(event.media.imageHash, reply.phone, event.media.exifText)]
              && |store.amounts| == |old(store.amounts)| + 1
              && store.amounts[..|old(store.amounts)|] == old(store.amounts)
              && store.amounts[|old(store.amounts)|].phone == reply.phone == TransactionPhone(config, event.sender)
              && store.amounts[|old(store.amounts)|].amount == reply.amount
              && store.amounts[|old(store.amounts)|].kwh == reply.kwh
  {
    if !IsWhitelisted(config.whitelist, event.sender) {
      return AccessDenied;
    }
    if event.numMedia > 0 {
      reply := HandleImage(store, config, event.sender, event.media, now);
      if reply.Added? {
        assert old(store.amounts) + [store.amounts[|old(store.amounts)|]] == store.amounts;
      }
      return;
    }
    if Strip(event.body) != [] {
      if IsAdmin(config, event.sender) {
        var admin := HandleAdminCommand(store, config, event.body, now, backupOk);
        return AdminText(admin);
      }
      var user := HandleUserCommand(store, event.sender, event.body, MonthOf(now));
      return UserText(user);
    }
    return SendImagePrompt;
  }
}
