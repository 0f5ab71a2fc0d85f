/**
 * The bulk-create pipeline: validation of a CSV file into accepted and rejected rows, the greedy
 * split by balance, and the chunks in which rows are submitted. Address checks, date parsing, case
 * folding and the clock are parameters; error messages are reduced to what they are about.
 */
module CsvValidation {
  import opened CsvText
  import opened JsString
  import opened Schedules
  import opened Stroops
  import opened Wrappers

  const MAX_BULK_CREATE_ROWS := 500

  const REQUIRED_HEADERS := ["beneficiary", "token", "amount_xlm", "start_time_iso", "duration_days", "kind"]

  /** `parseDate` yields milliseconds, `now` is the clock in milliseconds. */
  datatype Env = Env(
    isAccount: string -> bool,
    isContract: string -> bool,
    parseDate: string -> Option<int>,
    lower: string -> string,
    now: int)

  datatype RawRow = RawRow(
    rowIndex: nat,
    beneficiary: string,
    token: string,
    amountXlm: string,
    startTimeIso: string,
    durationDays: string,
    cliffDays: string,
    kind: string,
    revocable: string)

  datatype Field = Beneficiary | Token | Amount | StartTime | Duration | CliffDays | KindName | Revocable

  datatype RowError =
    | Required(field: Field)
    | Malformed(field: Field)
    | NotConvertible
    | NotInFuture
    | CliffNotBelowDuration
    | GradedNotSupported

  // ----- One row -----

  function OrElse(s: string, default: string): string {
    if s == "" then default else s
  }

  predicate PositiveDecimal(s: string) {
    ParseDecimal(s).Some? &&
    (DigitsValue(ParseDecimal(s).value.whole) > 0 || DigitsValue(ParseDecimal(s).value.fraction) > 0)
  }

  predicate PositiveInteger(s: string) {
    IsDigits(s) && DigitsValue(s) > 0
  }

  function ParseKind(s: string): Option<Kind> {
    if s == "Linear" then Some(Linear)
    else if s == "Cliff" then Some(Cliff)
    else if s == "LinearWithCliff" then Some(LinearWithCliff)
    else None
  }

  /** What a row has to meet, field by field. */
  predicate RowOk(env: Env, raw: RawRow) {
    && raw.beneficiary != "" && env.isAccount(raw.beneficiary)
    && raw.token != "" && env.isContract(raw.token)
    && PositiveDecimal(raw.amountXlm)
    && raw.startTimeIso != "" && env.parseDate(raw.startTimeIso).Some?
    && env.parseDate(raw.startTimeIso).value > env.now
    && PositiveInteger(raw.durationDays)
    && IsDigits(OrElse(raw.cliffDays, "0"))
    && DigitsValue(OrElse(raw.cliffDays, "0")) < DigitsValue(raw.durationDays)
    && ParseKind(raw.kind).Some?
    && env.lower(OrElse(raw.revocable, "true")) in ["true", "false", ""]
  }

  lemma EmptyIsNoDecimal()
    ensures !PositiveDecimal("")
  {
    assert Split("", ".") == [""];
  }

  function AddressErrors(field: Field, s: string, wellFormed: bool): (e: seq<RowError>)
    ensures e == [] <==> s != "" && wellFormed
  {
    if s == "" then [Required(field)] else if !wellFormed then [Malformed(field)] else []
  }

  function AmountErrors(s: string): (e: seq<RowError>)
    ensures e == [] <==> PositiveDecimal(s)
    ensures NotConvertible !in e
  {
    EmptyIsNoDecimal();
    if s == "" then [Required(Amount)]
    else if !PositiveDecimal(s) then [Malformed(Amount)]
    else
      DecimalIsTrimmed(s);
      if XlmToStroops(s).None? then [NotConvertible] else []
  }

  function StartErrors(env: Env, s: string): (e: seq<RowError>)
    ensures e == [] <==> s != "" && env.parseDate(s).Some? && env.parseDate(s).value > env.now
  {
    if s == "" then [Required(StartTime)]
    else if env.parseDate(s).None? then [Malformed(StartTime)]
    else if env.parseDate(s).value <= env.now then [NotInFuture]
    else []
  }

  function DurationErrors(s: string): (e: seq<RowError>)
    ensures e == [] <==> PositiveInteger(s)
  {
    if s == "" then [Required(Duration)] else if !PositiveInteger(s) then [Malformed(Duration)] else []
  }

  /** The cliff is compared only with a duration that is itself well-formed. */
  function CliffErrors(cliff: string, duration: string): (e: seq<RowError>)
    ensures PositiveInteger(duration) ==>
              (e == [] <==> IsDigits(OrElse(cliff, "0")) && DigitsValue(OrElse(cliff, "0")) < DigitsValue(duration))
  {
    var raw := OrElse(cliff, "0");
    if !IsDigits(raw) then [Malformed(CliffDays)]
    else if PositiveInteger(duration) && DigitsValue(raw) >= DigitsValue(duration) then [CliffNotBelowDuration]
    else []
  }

  function KindErrors(s: string): (e: seq<RowError>)
    ensures e == [] <==> ParseKind(s).Some?
  {
    if s == "" then [Required(KindName)]
    else if ParseKind(s).None? then [if s == "Graded" then GradedNotSupported else Malformed(KindName)]
    else []
  }

  function RevocableErrors(env: Env, s: string): (e: seq<RowError>)
    ensures e == [] <==> env.lower(OrElse(s, "true")) in ["true", "false", ""]
  {
    if env.lower(OrElse(s, "true")) !in ["true", "false", ""] then [Malformed(Revocable)] else []
  }

  /** All errors of a row, in the order in which they are reported. */
  function RowErrors(env: Env, raw: RawRow): seq<RowError> {
    AddressErrors(Beneficiary, raw.beneficiary, env.isAccount(raw.beneficiary))
    + AddressErrors(Token, raw.token, env.isContract(raw.token))
    + AmountErrors(raw.amountXlm)
    + StartErrors(env, raw.startTimeIso)
    + DurationErrors(raw.durationDays)
    + CliffErrors(raw.cliffDays, raw.durationDays)
    + KindErrors(raw.kind)
    + RevocableErrors(env, raw.revocable)
  }

  /**
   * A row is free of errors exactly when it meets every condition, and the error for a failing
   * conversion is never reported: what passes the pattern converts.
   */
  lemma NoErrorsIffOk(env: Env, raw: RawRow)
    ensures RowErrors(env, raw) == [] <==> RowOk(env, raw)
    ensures NotConvertible !in RowErrors(env, raw)
  {
    var cliff := CliffErrors(raw.cliffDays, raw.durationDays);
    assert DurationErrors(raw.durationDays) == [] ==> PositiveInteger(raw.durationDays);
  }

  /** `validateRow`: no error exactly for the rows that meet every condition. */
  method ValidateRow(env: Env, raw: RawRow) returns (errors: seq<RowError>)
    ensures errors == RowErrors(env, raw)
    ensures errors == [] <==> RowOk(env, raw)
    ensures NotConvertible !in errors
  {
    errors := AddressErrors(Beneficiary, raw.beneficiary, env.isAccount(raw.beneficiary));
    errors := errors + AddressErrors(Token, raw.token, env.isContract(raw.token));
    errors := errors + AmountErrors(raw.amountXlm);
    errors := errors + StartErrors(env, raw.startTimeIso);
    errors := errors + DurationErrors(raw.durationDays);
    errors := errors + CliffErrors(raw.cliffDays, raw.durationDays);
    errors := errors + KindErrors(raw.kind);
    errors := errors + RevocableErrors(env, raw.revocable);
    NoErrorsIffOk(env, raw);
  }

  // ----- What the errors say -----

  /** Some digit of the text is not 0. */
  predicate HasNonZero(s: string) {
    exists i :: 0 <= i < |s| && s[i] != '0'
  }

  /** A decimal written out, with a digit that counts. */
  ghost predicate WritesPositive(s: string, d: Decimal) {
    IsDecimal(d) && s == DecimalText(d) && (HasNonZero(d.whole) || HasNonZero(d.fraction))
  }

  lemma PositiveDecimalMeans(s: string)
    ensures PositiveDecimal(s) <==> exists d :: WritesPositive(s, d)
  {
    if PositiveDecimal(s) {
      var d := ParseDecimal(s).value;
      ParsesExactly(s, d);
      DigitsValueZero(d.whole);
      DigitsValueZero(d.fraction);
      assert WritesPositive(s, d);
    }
    if exists d :: WritesPositive(s, d) {
      var d :| WritesPositive(s, d);
      ParsesExactly(s, d);
      DigitsValueZero(d.whole);
      DigitsValueZero(d.fraction);
    }
  }

  lemma PositiveIntegerMeans(s: string)
    ensures PositiveInteger(s) <==> IsDigits(s) && HasNonZero(s)
  {
    if IsDigits(s) {
      DigitsValueZero(s);
    }
  }

  /** The text that a kind is written as. */
  predicate KindIsCalled(kind: Kind, s: string) {
    match kind
    case Linear => s == "Linear"
    case Cliff => s == "Cliff"
    case LinearWithCliff => s == "LinearWithCliff"
    case Graded => false
  }

  lemma ParseKindMeans(s: string, kind: Kind)
    ensures ParseKind(s) == Some(kind) <==> KindIsCalled(kind, s)
    ensures ParseKind(s) == None <==> s != "Linear" && s != "Cliff" && s != "LinearWithCliff"
  {
  }

  /** An error is reported if and only if the check of one field reports it. */
  lemma ErrorsOfFields(env: Env, raw: RawRow, e: RowError)
    ensures e in RowErrors(env, raw) <==>
              || e in AddressErrors(Beneficiary, raw.beneficiary, env.isAccount(raw.beneficiary))
              || e in AddressErrors(Token, raw.token, env.isContract(raw.token))
              || e in AmountErrors(raw.amountXlm)
              || e in StartErrors(env, raw.startTimeIso)
              || e in DurationErrors(raw.durationDays)
              || e in CliffErrors(raw.cliffDays, raw.durationDays)
              || e in KindErrors(raw.kind)
              || e in RevocableErrors(env, raw.revocable)
  {
  }

  /** Each error about an address is reported exactly for its reason. */
  lemma AddressErrorsSay(env: Env, raw: RawRow, errors: seq<RowError>)
    requires errors == RowErrors(env, raw)
    ensures Required(Beneficiary) in errors <==> raw.beneficiary == ""
    ensures Malformed(Beneficiary) in errors <==> raw.beneficiary != "" && !env.isAccount(raw.beneficiary)
    ensures Required(Token) in errors <==> raw.token == ""
    ensures Malformed(Token) in errors <==> raw.token != "" && !env.isContract(raw.token)
  {
    ErrorsOfFields(env, raw, Required(Beneficiary));
    ErrorsOfFields(env, raw, Malformed(Beneficiary));
    ErrorsOfFields(env, raw, Required(Token));
    ErrorsOfFields(env, raw, Malformed(Token));
  }

  /** And so is each error about the start, */
  lemma StartErrorsSay(env: Env, raw: RawRow, errors: seq<RowError>)
    requires errors == RowErrors(env, raw)
    ensures Required(StartTime) in errors <==> raw.startTimeIso == ""
    ensures Malformed(StartTime) in errors <==> raw.startTimeIso != "" && env.parseDate(raw.startTimeIso) == None
    ensures NotInFuture in errors <==>
              raw.startTimeIso != "" && exists ms :: env.parseDate(raw.startTimeIso) == Some(ms) && ms <= env.now
  {
    ErrorsOfFields(env, raw, Required(StartTime));
    ErrorsOfFields(env, raw, Malformed(StartTime));
    ErrorsOfFields(env, raw, NotInFuture);
  }

  /** about the amount, */
  lemma AmountErrorsSay(env: Env, raw: RawRow, errors: seq<RowError>)
    requires errors == RowErrors(env, raw)
    ensures Required(Amount) in errors <==> raw.amountXlm == ""
    ensures Malformed(Amount) in errors <==> raw.amountXlm != "" && forall d :: !WritesPositive(raw.amountXlm, d)
    ensures NotConvertible !in errors
  {
    PositiveDecimalMeans(raw.amountXlm);
    ErrorsOfFields(env, raw, Required(Amount));
    ErrorsOfFields(env, raw, Malformed(Amount));
    ErrorsOfFields(env, raw, NotConvertible);
  }

  /** about the days, */
  lemma DayErrorsSay(env: Env, raw: RawRow, errors: seq<RowError>)
    requires errors == RowErrors(env, raw)
    ensures Required(Duration) in errors <==> raw.durationDays == ""
    ensures Malformed(Duration) in errors <==>
              raw.durationDays != "" && !(IsDigits(raw.durationDays) && HasNonZero(raw.durationDays))
    ensures Malformed(CliffDays) in errors <==> raw.cliffDays != "" && !IsDigits(raw.cliffDays)
    ensures CliffNotBelowDuration in errors <==>
              && IsDigits(raw.durationDays) && HasNonZero(raw.durationDays)
              && IsDigits(raw.cliffDays) && DigitsValue(raw.cliffDays) >= DigitsValue(raw.durationDays)
  {
    PositiveIntegerMeans(raw.durationDays);
    DigitsValueZero("0");
    ErrorsOfFields(env, raw, Required(Duration));
    ErrorsOfFields(env, raw, Malformed(Duration));
    ErrorsOfFields(env, raw, Malformed(CliffDays));
    ErrorsOfFields(env, raw, CliffNotBelowDuration);
  }

  /** and about the kind and the flag. */
  lemma KindAndFlagErrorsSay(env: Env, raw: RawRow, errors: seq<RowError>)
    requires errors == RowErrors(env, raw)
    ensures Required(KindName) in errors <==> raw.kind == ""
    ensures GradedNotSupported in errors <==> raw.kind == "Graded"
    ensures Malformed(KindName) in errors <==>
              raw.kind !in ["", "Linear", "Cliff", "LinearWithCliff", "Graded"]
    ensures Malformed(Revocable) in errors <==>
              env.lower(if raw.revocable == "" then "true" else raw.revocable) !in ["true", "false", ""]
  {
    ParseKindMeans(raw.kind, Linear);
    ErrorsOfFields(env, raw, Required(KindName));
    ErrorsOfFields(env, raw, GradedNotSupported);
    ErrorsOfFields(env, raw, Malformed(KindName));
    ErrorsOfFields(env, raw, Malformed(Revocable));
  }

  /** The position of the field that an error is about. */
  function FieldNumber(field: Field): nat {
    match field
    case Beneficiary => 0
    case Token => 1
    case Amount => 2
    case StartTime => 3
    case Duration => 4
    case CliffDays => 5
    case KindName => 6
    case Revocable => 7
  }

  function ErrorNumber(e: RowError): nat {
    match e
    case Required(field) => FieldNumber(field)
    case Malformed(field) => FieldNumber(field)
    case NotConvertible => 2
    case NotInFuture => 3
    case CliffNotBelowDuration => 5
    case GradedNotSupported => 6
  }

  /** At most one error for each field below `upto`, in the order of the fields. */
  ghost predicate OnePerField(errors: seq<RowError>, upto: nat) {
    && (forall i :: 0 <= i < |errors| ==> ErrorNumber(errors[i]) < upto)
    && forall i, j :: 0 <= i < j < |errors| ==> ErrorNumber(errors[i]) < ErrorNumber(errors[j])
  }

  /** At most one error, about field `n`. */
  ghost predicate AboutField(errors: seq<RowError>, n: nat) {
    |errors| <= 1 && forall i :: 0 <= i < |errors| ==> ErrorNumber(errors[i]) == n
  }

  lemma AppendField(errors: seq<RowError>, next: seq<RowError>, n: nat, all: seq<RowError>)
    requires OnePerField(errors, n) && AboutField(next, n) && all == errors + next
    ensures OnePerField(all, n + 1)
  {
  }

  lemma CheckedFields(env: Env, raw: RawRow)
    ensures AboutField(AddressErrors(Beneficiary, raw.beneficiary, env.isAccount(raw.beneficiary)), 0)
    ensures AboutField(AddressErrors(Token, raw.token, env.isContract(raw.token)), 1)
    ensures AboutField(AmountErrors(raw.amountXlm), 2)
    ensures AboutField(StartErrors(env, raw.startTimeIso), 3)
    ensures AboutField(DurationErrors(raw.durationDays), 4)
    ensures AboutField(CliffErrors(raw.cliffDays, raw.durationDays), 5)
    ensures AboutField(KindErrors(raw.kind), 6)
    ensures AboutField(RevocableErrors(env, raw.revocable), 7)
  {
  }

  lemma EightFields(a: seq<RowError>, b: seq<RowError>, c: seq<RowError>, d: seq<RowError>, e: seq<RowError>,
                    f: seq<RowError>, g: seq<RowError>, h: seq<RowError>)
    requires AboutField(a, 0) && AboutField(b, 1) && AboutField(c, 2) && AboutField(d, 3)
    requires AboutField(e, 4) && AboutField(f, 5) && AboutField(g, 6) && AboutField(h, 7)
    ensures OnePerField(a + b + c + d + e + f + g + h, 8)
  {
    AppendField([], a, 0, a);
    AppendField(a, b, 1, a + b);
    AppendField(a + b, c, 2, a + b + c);
    AppendField(a + b + c, d, 3, a + b + c + d);
    AppendField(a + b + c + d, e, 4, a + b + c + d + e);
    AppendField(a + b + c + d + e, f, 5, a + b + c + d + e + f);
    AppendField(a + b + c + d + e + f, g, 6, a + b + c + d + e + f + g);
    AppendField(a + b + c + d + e + f + g, h, 7, a + b + c + d + e + f + g + h);
  }

  /** A row has at most one error a field, and they are reported in the order of the fields. */
  lemma ErrorsInOrder(env: Env, raw: RawRow)
    ensures OnePerField(RowErrors(env, raw), 8)
  {
    CheckedFields(env, raw);
    EightFields(AddressErrors(Beneficiary, raw.beneficiary, env.isAccount(raw.beneficiary)),
                AddressErrors(Token, raw.token, env.isContract(raw.token)), AmountErrors(raw.amountXlm),
                StartErrors(env, raw.startTimeIso), DurationErrors(raw.durationDays),
                CliffErrors(raw.cliffDays, raw.durationDays), KindErrors(raw.kind),
                RevocableErrors(env, raw.revocable));
  }

  // ----- What is accepted -----

  /** The row that is pushed for a raw row without errors. */
  function Accept(env: Env, raw: RawRow): (row: ValidatedRow)
    requires RowOk(env, raw)
    ensures ScheduleRow(row)
  {
    DecimalIsTrimmed(raw.amountXlm);
    ValidatedRow(
      raw.rowIndex, raw.beneficiary, raw.token, raw.amountXlm, XlmToStroops(raw.amountXlm).value,
      env.parseDate(raw.startTimeIso).value / 1000, DigitsValue(raw.durationDays),
      DigitsValue(OrElse(raw.cliffDays, "0")), ParseKind(raw.kind).value,
      env.lower(OrElse(raw.revocable, "true")) != "false")
  }

  lemma ValueOfPositive(s: string)
    requires PositiveDecimal(s)
    ensures XlmToStroops(s) == Some(0) <==> BelowOneStroop(ParseDecimal(s).value)
    ensures XlmToStroops(s).Some?
  {
    DecimalIsTrimmed(s);
    WorthNothing(s);
  }

  lemma TinyAmount(s: string, fraction: string)
    requires fraction == "00000001" && s == "0" + "." + fraction
    ensures PositiveDecimal(s) && XlmToStroops(s) == Some(0)
  {
    SplitAtPoint("0", fraction);
    DigitsValueZero(fraction);
    assert fraction[7] != '0';
    ValueOfPositive(s);
  }

  /**
   * The validator does not ask whether an amount reaches one stroop: an accepted row is worth nothing exactly
   * if no digit up to the seventh decimal place counts, and any row that is accepted is also accepted with
   * such an amount.
   */
  lemma AcceptedRowCanBeWorthless(env: Env, raw: RawRow)
    requires RowOk(env, raw)
    ensures Accept(env, raw).amountStroops == 0 <==> BelowOneStroop(ParseDecimal(raw.amountXlm).value)
    ensures var tiny := raw.(amountXlm := "0" + "." + "00000001");
            RowOk(env, tiny) && Accept(env, tiny).amountStroops == 0
  {
    ValueOfPositive(raw.amountXlm);
    TinyAmount("0" + "." + "00000001", "00000001");
  }

  /**
   * What an accepted row says: the texts of its addresses, the floor of its amount in stroops, the second in which
   * its date lies, the numbers of days its digits denote, with no cliff where none is given, and its kind; it is
   * revocable unless it says "false".
   */
  lemma AcceptedRowSays(env: Env, raw: RawRow, row: ValidatedRow, n: nat)
    requires RowOk(env, raw) && row == Accept(env, raw)
    ensures row.rowIndex == raw.rowIndex && row.beneficiary == raw.beneficiary && row.token == raw.token
    ensures 0 <= row.cliffDays < row.durationDays
    ensures row.amountXlm == raw.amountXlm && row.amountStroops == FloorScaled(ParseDecimal(raw.amountXlm).value, 7)
    ensures 1000 * row.startTime <= env.parseDate(raw.startTimeIso).value < 1000 * row.startTime + 1000
    ensures raw.durationDays == NatString(n) ==> row.durationDays == n
    ensures raw.cliffDays == NatString(n) ==> row.cliffDays == n
    ensures raw.cliffDays == "" ==> row.cliffDays == 0
    ensures KindIsCalled(row.kind, raw.kind)
    ensures !row.revocable <==> env.lower(if raw.revocable == "" then "true" else raw.revocable) == "false"
  {
    DecimalIsTrimmed(raw.amountXlm);
    XlmToStroopsIsFloor(raw.amountXlm);
    DigitsValueZero("0");
  }

  // ----- The file -----

  function IndexOf(names: seq<string>, name: string): int {
    if names == [] then -1
    else if names[0] == name then 0
    else if IndexOf(names[1..], name) < 0 then -1
    else IndexOf(names[1..], name) + 1
  }

  lemma {:induction false} IndexOfIsFirst(names: seq<string>, name: string)
    ensures var i := IndexOf(names, name);
            && (i < 0 <==> name !in names)
            && (i >= 0 ==> i < |names| && names[i] == name && name !in names[..i])
  {
    if names != [] && names[0] != name {
      IndexOfIsFirst(names[1..], name);
      var i := IndexOf(names[1..], name);
      assert names == [names[0]] + names[1..];
      assert i >= 0 ==> names[..i + 1] == [names[0]] + names[1..][..i];
    }
  }

  /** `cells[index] ?? ""` */
  function CellAt(cells: seq<string>, index: int): string {
    if 0 <= index < |cells| then cells[index] else ""
  }

  function HeaderNames(env: Env, line: string): seq<string> {
    var cells := TrimAll(ReadLine(line));
    seq(|cells|, i requires 0 <= i < |cells| => env.lower(cells[i]))
  }

  function RawAt(names: seq<string>, line: string, rowIndex: nat): RawRow {
    var cells := TrimAll(ReadLine(line));
    RawRow(
      rowIndex,
      CellAt(cells, IndexOf(names, "beneficiary")),
      CellAt(cells, IndexOf(names, "token")),
      CellAt(cells, IndexOf(names, "amount_xlm")),
      CellAt(cells, IndexOf(names, "start_time_iso")),
      CellAt(cells, IndexOf(names, "duration_days")),
      CellAt(cells, IndexOf(names, "cliff_days")),
      CellAt(cells, IndexOf(names, "kind")),
      CellAt(cells, IndexOf(names, "revocable")))
  }

  /** `value` is the cell under the first column called `name`, and empty if there is none or the line is too short. */
  ghost predicate ReadsColumn(names: seq<string>, cells: seq<string>, name: string, value: string) {
    if name !in names then value == ""
    else exists j :: 0 <= j < |names| && names[j] == name && name !in names[..j]
                     && value == if j < |cells| then cells[j] else ""
  }

  lemma CellIsUnderColumn(names: seq<string>, cells: seq<string>, name: string)
    ensures ReadsColumn(names, cells, name, CellAt(cells, IndexOf(names, name)))
  {
    IndexOfIsFirst(names, name);
  }

  /** Every field of a row is read from the column of its name, in whatever order the columns stand. */
  lemma RowReadsColumns(names: seq<string>, line: string, rowIndex: nat, raw: RawRow, cells: seq<string>)
    requires raw == RawAt(names, line, rowIndex) && cells == TrimAll(ReadLine(line))
    ensures raw.rowIndex == rowIndex
    ensures ReadsColumn(names, cells, "beneficiary", raw.beneficiary)
    ensures ReadsColumn(names, cells, "token", raw.token)
    ensures ReadsColumn(names, cells, "amount_xlm", raw.amountXlm)
    ensures ReadsColumn(names, cells, "start_time_iso", raw.startTimeIso)
    ensures ReadsColumn(names, cells, "duration_days", raw.durationDays)
    ensures ReadsColumn(names, cells, "cliff_days", raw.cliffDays)
    ensures ReadsColumn(names, cells, "kind", raw.kind)
    ensures ReadsColumn(names, cells, "revocable", raw.revocable)
  {
    CellIsUnderColumn(names, cells, "beneficiary");
    CellIsUnderColumn(names, cells, "token");
    CellIsUnderColumn(names, cells, "amount_xlm");
    CellIsUnderColumn(names, cells, "start_time_iso");
    CellIsUnderColumn(names, cells, "duration_days");
    CellIsUnderColumn(names, cells, "cliff_days");
    CellIsUnderColumn(names, cells, "kind");
    CellIsUnderColumn(names, cells, "revocable");
  }

  datatype HeaderProblem = EmptyFile | MissingColumns(names: seq<string>) | TooManyRows(count: nat)

  datatype InvalidRow = InvalidRow(rowIndex: nat, raw: RawRow, errors: seq<RowError>)

  datatype CsvResult =
    | HeaderError(problem: HeaderProblem)
    | Rows(validRows: seq<ValidatedRow>, invalidRows: seq<InvalidRow>)

  /** What becomes of one data line. */
  datatype Outcome = Skipped | Accepted(row: ValidatedRow) | Rejected(invalid: InvalidRow)

  function OutcomeOf(env: Env, names: seq<string>, line: string, rowIndex: nat): Outcome {
    if Blank(line) then Skipped
    else
      var raw := RawAt(names, line, rowIndex);
      NoErrorsIffOk(env, raw);
      if RowErrors(env, raw) != [] then Rejected(InvalidRow(rowIndex, raw, RowErrors(env, raw)))
      else Accepted(Accept(env, raw))
  }

  /** Classify every line, with line numbers from 1. */
  function MapLines(classify: (string, nat) -> Outcome, lines: seq<string>): (r: seq<Outcome>)
    ensures |r| == |lines|
  {
    if lines == [] then []
    else MapLines(classify, lines[..|lines| - 1]) + [classify(lines[|lines| - 1], |lines|)]
  }

  lemma {:induction false} MapLinesAt(classify: (string, nat) -> Outcome, lines: seq<string>, i: nat)
    requires i < |lines|
    ensures MapLines(classify, lines)[i] == classify(lines[i], i + 1)
  {
    if i < |lines| - 1 {
      MapLinesAt(classify, lines[..|lines| - 1], i);
    }
  }

  function Classifier(env: Env, names: seq<string>): (string, nat) -> Outcome {
    (line: string, rowIndex: nat) => OutcomeOf(env, names, line, rowIndex)
  }

  function Outcomes(env: Env, names: seq<string>, lines: seq<string>): (r: seq<Outcome>)
    ensures |r| == |lines|
  {
    MapLines(Classifier(env, names), lines)
  }

  predicate NumberedBy(outcome: Outcome, rowIndex: nat) {
    match outcome
    case Skipped => true
    case Accepted(row) => row.rowIndex == rowIndex
    case Rejected(row) => row.rowIndex == rowIndex
  }

  /** Only blank lines are skipped; the rest is accepted or rejected by the conditions on its cells. */
  lemma OutcomeMeaning(env: Env, names: seq<string>, line: string, rowIndex: nat)
    ensures OutcomeOf(env, names, line, rowIndex).Skipped? <==> Blank(line)
    ensures OutcomeOf(env, names, line, rowIndex).Accepted? <==>
              !Blank(line) && RowOk(env, RawAt(names, line, rowIndex))
    ensures NumberedBy(OutcomeOf(env, names, line, rowIndex), rowIndex)
    ensures OutcomeOf(env, names, line, rowIndex).Accepted? ==> ScheduleRow(OutcomeOf(env, names, line, rowIndex).row)
  {
    NoErrorsIffOk(env, RawAt(names, line, rowIndex));
  }

  /** What is kept of a line: its fields and errors if it is rejected, the row they make if not. */
  lemma OutcomeCarries(env: Env, names: seq<string>, line: string, rowIndex: nat, raw: RawRow)
    requires raw == RawAt(names, line, rowIndex)
    ensures match OutcomeOf(env, names, line, rowIndex)
            case Skipped => true
            case Accepted(row) => RowOk(env, raw) && row == Accept(env, raw)
            case Rejected(invalid) => invalid == InvalidRow(rowIndex, raw, RowErrors(env, raw)) && invalid.errors != []
  {
    NoErrorsIffOk(env, raw);
  }

  function AcceptedRows(outcomes: seq<Outcome>): seq<ValidatedRow> {
    if outcomes == [] then []
    else
      var earlier, last := AcceptedRows(outcomes[..|outcomes| - 1]), outcomes[|outcomes| - 1];
      if last.Accepted? then earlier + [last.row] else earlier
  }

  function RejectedRows(outcomes: seq<Outcome>): seq<InvalidRow> {
    if outcomes == [] then []
    else
      var earlier, last := RejectedRows(outcomes[..|outcomes| - 1]), outcomes[|outcomes| - 1];
      if last.Rejected? then earlier + [last.invalid] else earlier
  }

  method ClassifyLine(env: Env, names: seq<string>, line: string, rowIndex: nat) returns (outcome: Outcome)
    ensures outcome == OutcomeOf(env, names, line, rowIndex)
  {
    if Blank(line) {
      return Skipped;
    }
    var raw := RawAt(names, line, rowIndex);
    var errors := ValidateRow(env, raw);
    outcome := if errors != [] then Rejected(InvalidRow(raw.rowIndex, raw, errors)) else Accepted(Accept(env, raw));
  }

  /** `dataLines.forEach(...)` */
  method ClassifyLines(env: Env, names: seq<string>, lines: seq<string>)
      returns (valid: seq<ValidatedRow>, invalid: seq<InvalidRow>)
    ensures valid == AcceptedRows(Outcomes(env, names, lines))
    ensures invalid == RejectedRows(Outcomes(env, names, lines))
  {
    valid, invalid := [], [];
    ghost var outcomes := [];
    for i := 0 to |lines|
      invariant outcomes == Outcomes(env, names, lines[..i])
      invariant valid == AcceptedRows(outcomes) && invalid == RejectedRows(outcomes)
    {
      assert lines[..i + 1][..i] == lines[..i];
      var outcome := ClassifyLine(env, names, lines[i], i + 1);
      assert (outcomes + [outcome])[..|outcomes|] == outcomes;
      outcomes := outcomes + [outcome];
      match outcome
      case Skipped =>
      case Accepted(row) => valid := valid + [row];
      case Rejected(row) => invalid := invalid + [row];
    }
    assert lines[..|lines|] == lines;
  }

  /** `REQUIRED_HEADERS.filter(...)` */
  method MissingHeaders(names: seq<string>) returns (missing: seq<string>)
    ensures forall h :: h in missing <==> h in REQUIRED_HEADERS && h !in names
  {
    missing := [];
    var required := REQUIRED_HEADERS;
    for i := 0 to |required|
      invariant forall h :: h in missing <==> h in required[..i] && h !in names
    {
      if required[i] !in names {
        missing := missing + [required[i]];
      }
    }
  }

  /** The columns without which a file is refused; those for the cliff and the flag are optional. */
  lemma RequiredColumns(name: string)
    ensures name in REQUIRED_HEADERS <==>
              || name == "beneficiary" || name == "token" || name == "amount_xlm"
              || name == "start_time_iso" || name == "duration_days" || name == "kind"
  {
  }

  /** The header of a file is read as its trimmed cells in lower case. */
  lemma PlainHeader(env: Env, names: seq<string>)
    requires names != [] && forall i :: 0 <= i < |names| ==> BareText(names[i]) && Trimmed(names[i])
    ensures |HeaderNames(env, Join(names, ","))| == |names|
    ensures forall i :: 0 <= i < |names| ==> HeaderNames(env, Join(names, ","))[i] == env.lower(names[i])
  {
    PlainLine(names);
    forall i | 0 <= i < |names|
      ensures Trim(names[i]) == names[i]
    {
      TrimFixpoint(names[i]);
    }
  }

  method ValidateCsv(env: Env, text: string) returns (r: CsvResult)
    ensures Lines(text) == [] ==> r == HeaderError(EmptyFile)
    ensures Lines(text) != [] ==>
              var names, dataLines := HeaderNames(env, Lines(text)[0]), Lines(text)[1..];
              if exists h :: h in REQUIRED_HEADERS && h !in names then
                && r.HeaderError? && r.problem.MissingColumns?
                && forall h :: h in r.problem.names <==> h in REQUIRED_HEADERS && h !in names
              else if |dataLines| > MAX_BULK_CREATE_ROWS then r == HeaderError(TooManyRows(|dataLines|))
              else r == Rows(AcceptedRows(Outcomes(env, names, dataLines)),
                             RejectedRows(Outcomes(env, names, dataLines)))
  {
    var lines := SplitLines(text);
    if lines == [] {
      return HeaderError(EmptyFile);
    }
    var names := HeaderNames(env, lines[0]);
    var missing := MissingHeaders(names);
    if missing != [] {
      assert missing[0] in missing;
      return HeaderError(MissingColumns(missing));
    }
    var dataLines := lines[1..];
    if |dataLines| > MAX_BULK_CREATE_ROWS {
      return HeaderError(TooManyRows(|dataLines|));
    }
    var valid, invalid := ClassifyLines(env, names, dataLines);
    r := Rows(valid, invalid);
  }

  /** Both lists keep the order of the file. */
  ghost predicate InOrder(valid: seq<ValidatedRow>, invalid: seq<InvalidRow>, upto: nat) {
    && (forall i :: 0 <= i < |valid| ==> 1 <= valid[i].rowIndex <= upto)
    && (forall i :: 0 <= i < |invalid| ==> 1 <= invalid[i].rowIndex <= upto)
    && (forall i, j :: 0 <= i < j < |valid| ==> valid[i].rowIndex < valid[j].rowIndex)
    && (forall i, j :: 0 <= i < j < |invalid| ==> invalid[i].rowIndex < invalid[j].rowIndex)
  }

  lemma {:induction false} RowsInOrder(outcomes: seq<Outcome>)
    requires forall i :: 0 <= i < |outcomes| ==> NumberedBy(outcomes[i], i + 1)
    ensures InOrder(AcceptedRows(outcomes), RejectedRows(outcomes), |outcomes|)
  {
    if outcomes != [] {
      RowsInOrder(outcomes[..|outcomes| - 1]);
    }
  }

  lemma {:induction false} AcceptedExactly(outcomes: seq<Outcome>)
    requires forall i :: 0 <= i < |outcomes| ==> NumberedBy(outcomes[i], i + 1)
    ensures forall r :: r in AcceptedRows(outcomes) <==>
              1 <= r.rowIndex <= |outcomes| && outcomes[r.rowIndex - 1] == Accepted(r)
  {
    if outcomes != [] {
      AcceptedExactly(outcomes[..|outcomes| - 1]);
    }
  }

  lemma {:induction false} RejectedExactly(outcomes: seq<Outcome>)
    requires forall i :: 0 <= i < |outcomes| ==> NumberedBy(outcomes[i], i + 1)
    ensures forall r :: r in RejectedRows(outcomes) <==>
              1 <= r.rowIndex <= |outcomes| && outcomes[r.rowIndex - 1] == Rejected(r)
  {
    if outcomes != [] {
      RejectedExactly(outcomes[..|outcomes| - 1]);
    }
  }

  /**
   * The rows of a file are conserved: the two lists together hold every line with text exactly once,
   * in order and under its own number, and nothing else; in particular no line is in both.
   */
  lemma RowsConserved(outcomes: seq<Outcome>)
    requires forall i :: 0 <= i < |outcomes| ==> NumberedBy(outcomes[i], i + 1)
    ensures InOrder(AcceptedRows(outcomes), RejectedRows(outcomes), |outcomes|)
    ensures forall r :: r in AcceptedRows(outcomes) <==>
              1 <= r.rowIndex <= |outcomes| && outcomes[r.rowIndex - 1] == Accepted(r)
    ensures forall r :: r in RejectedRows(outcomes) <==>
              1 <= r.rowIndex <= |outcomes| && outcomes[r.rowIndex - 1] == Rejected(r)
  {
    RowsInOrder(outcomes);
    AcceptedExactly(outcomes);
    RejectedExactly(outcomes);
  }

  /** For a whole file: what is accepted is fit for the batch builder, and what is skipped is blank. */
  lemma FileConserved(env: Env, names: seq<string>, lines: seq<string>)
    ensures var outcomes := Outcomes(env, names, lines);
            && InOrder(AcceptedRows(outcomes), RejectedRows(outcomes), |lines|)
            && (forall r :: r in AcceptedRows(outcomes) <==>
                  1 <= r.rowIndex <= |lines| && outcomes[r.rowIndex - 1] == Accepted(r))
            && (forall r :: r in RejectedRows(outcomes) <==>
                  1 <= r.rowIndex <= |lines| && outcomes[r.rowIndex - 1] == Rejected(r))
            && (forall i :: 0 <= i < |lines| ==> (outcomes[i].Skipped? <==> Blank(lines[i])))
            && forall r :: r in AcceptedRows(outcomes) ==> ScheduleRow(r)
  {
    var outcomes := Outcomes(env, names, lines);
    forall i | 0 <= i < |lines|
      ensures NumberedBy(outcomes[i], i + 1)
      ensures outcomes[i].Skipped? <==> Blank(lines[i])
      ensures outcomes[i].Accepted? ==> ScheduleRow(outcomes[i].row)
    {
      MapLinesAt(Classifier(env, names), lines, i);
      OutcomeMeaning(env, names, lines[i], i + 1);
    }
    RowsConserved(outcomes);
  }

  // ----- Splitting by balance -----

  ghost predicate NonNegative(rows: seq<ValidatedRow>) {
    forall i :: 0 <= i < |rows| ==> rows[i].amountStroops >= 0
  }

  /** The rows up to which, counting all rows before, the balance lasts; and the others. */
  function FundableOf(rows: seq<ValidatedRow>, available: int): seq<ValidatedRow> {
    if rows == [] then []
    else
      var earlier := FundableOf(rows[..|rows| - 1], available);
      if TotalStroops(rows) <= available then earlier + [rows[|rows| - 1]] else earlier
  }

  function UnfundableOf(rows: seq<ValidatedRow>, available: int): seq<ValidatedRow> {
    if rows == [] then []
    else
      var earlier := UnfundableOf(rows[..|rows| - 1], available);
      if TotalStroops(rows) <= available then earlier else earlier + [rows[|rows| - 1]]
  }

  method SplitByAvailableBalance(rows: seq<ValidatedRow>, available: int)
      returns (fundable: seq<ValidatedRow>, unfundable: seq<ValidatedRow>)
    ensures fundable == FundableOf(rows, available) && unfundable == UnfundableOf(rows, available)
  {
    var running := 0;
    fundable, unfundable := [], [];
    for i := 0 to |rows|
      invariant running == TotalStroops(rows[..i])
      invariant fundable == FundableOf(rows[..i], available) && unfundable == UnfundableOf(rows[..i], available)
    {
      assert rows[..i + 1][..i] == rows[..i];
      running := running + rows[i].amountStroops;
      if running <= available {
        fundable := fundable + [rows[i]];
      } else {
        unfundable := unfundable + [rows[i]];
      }
    }
    assert rows[..|rows|] == rows;
  }

  lemma {:induction false} PrefixTotals(rows: seq<ValidatedRow>, k: nat)
    requires NonNegative(rows) && k <= |rows|
    ensures TotalStroops(rows[..k]) <= TotalStroops(rows)
  {
    if k == |rows| {
      assert rows[..k] == rows;
    } else {
      assert rows[..|rows| - 1][..k] == rows[..k];
      PrefixTotals(rows[..|rows| - 1], k);
    }
  }

  /** The front part is the first `k` rows, which the balance covers, and one more would be too much. */
  ghost predicate LongestPrefix(rows: seq<ValidatedRow>, available: int, k: nat) {
    && k <= |rows|
    && FundableOf(rows, available) == rows[..k]
    && UnfundableOf(rows, available) == rows[k..]
    && (k > 0 ==> TotalStroops(rows[..k]) <= available)
    && (k < |rows| ==> TotalStroops(rows[..k + 1]) > available)
  }

  lemma CutBefore(rows: seq<ValidatedRow>, earlier: seq<ValidatedRow>, last: ValidatedRow, available: int, k: nat)
    requires rows == earlier + [last] && k < |earlier| && LongestPrefix(earlier, available, k)
    requires TotalStroops(rows) > available
    ensures LongestPrefix(rows, available, k)
  {
    assert rows[..|rows| - 1] == earlier && rows[|rows| - 1] == last;
    assert rows[..k] == earlier[..k] && rows[..k + 1] == earlier[..k + 1] && rows[k..] == earlier[k..] + [last];
  }

  lemma CutAtEnd(rows: seq<ValidatedRow>, earlier: seq<ValidatedRow>, last: ValidatedRow, available: int)
    requires rows == earlier + [last] && LongestPrefix(earlier, available, |earlier|)
    ensures LongestPrefix(rows, available, if TotalStroops(rows) <= available then |rows| else |earlier|)
  {
    assert rows[..|rows| - 1] == earlier && rows[|rows| - 1] == last;
    assert earlier[..|earlier|] == earlier && earlier[|earlier|..] == [];
    assert rows[..|rows|] == rows && rows[|earlier|..] == [last] && rows[|rows|..] == [];
  }

  lemma {:induction false} SplitPoint(rows: seq<ValidatedRow>, available: int) returns (k: nat)
    requires NonNegative(rows)
    ensures LongestPrefix(rows, available, k)
  {
    if rows == [] {
      return 0;
    }
    var earlier, last := rows[..|rows| - 1], rows[|rows| - 1];
    k := SplitPoint(earlier, available);
    assert rows == earlier + [last];
    if k < |earlier| {
      PrefixTotals(rows, k + 1);
      assert rows[..k + 1] == earlier[..k + 1];
      CutBefore(rows, earlier, last, available, k);
    } else {
      CutAtEnd(rows, earlier, last, available);
      k := if TotalStroops(rows) <= available then |rows| else |earlier|;
    }
  }

  /**
   * For non-negative amounts the greedy pass cuts the list in two, and the front part is the longest
   * prefix that the balance covers.
   */
  lemma SplitIsLongestPrefix(rows: seq<ValidatedRow>, available: int)
    requires NonNegative(rows)
    ensures LongestPrefix(rows, available, |FundableOf(rows, available)|)
  {
    var k := SplitPoint(rows, available);
  }

  // ----- Chunks -----

  /** The chunks put together are the rows, and only the last one may be short, but never empty. */
  method ChunkRows<T>(rows: seq<T>, size: nat) returns (chunks: seq<seq<T>>)
    requires size > 0
    ensures Flatten(chunks) == rows
    ensures forall i :: 0 <= i < |chunks| - 1 ==> |chunks[i]| == size
    ensures chunks != [] ==> 0 < |chunks[|chunks| - 1]| <= size
  {
    chunks := [];
    var i := 0;
    while i < |rows|
      invariant 0 <= i && Flatten(chunks) == rows[..if i <= |rows| then i else |rows|]
      invariant i < |rows| ==> forall j :: 0 <= j < |chunks| ==> |chunks[j]| == size
      invariant forall j :: 0 <= j < |chunks| - 1 ==> |chunks[j]| == size
      invariant chunks != [] ==> 0 < |chunks[|chunks| - 1]| <= size
    {
      var end := if i + size <= |rows| then i + size else |rows|;
      assert rows[..i] + rows[i..end] == rows[..end];
      assert (chunks + [rows[i..end]])[..|chunks|] == chunks;
      chunks := chunks + [rows[i..end]];
      i := i + size;
    }
    assert rows[..|rows|] == rows;
  }
}
