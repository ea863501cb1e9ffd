/**
 SEARCH (apps/imap/src/search.ts): keys that are columns compile to SQL, keys that need the text are
 evaluated per row. The text itself (headers and bodies) is a parameter.
*/
module Search {
  import opened Sets
  import opened Flags
  import opened MailStore
  import opened ViewModel

  // --- dates ------------------------------------------------------------------------------------

  const DAY_MS := 86_400_000

  datatype ImapDate = ImapDate(year: nat, month: nat, day: nat)

  /** What the command parser lets through: a month name, a day up to 31, four digits of year. */
  predicate Parsed(d: ImapDate) {
    1 <= d.month <= 12 && 1 <= d.day <= 31 && d.year <= 9999
  }

  predicate Leap(y: int) {
    y % 4 == 0 && (y % 100 != 0 || y % 400 == 0)
  }

  function DaysInMonth(y: int, m: nat): (n: nat)
    requires 1 <= m <= 12
  {
    if m == 2 then (if Leap(y) then 29 else 28) else [31, 28, 31, 30, 31, 30, 31, 31, 30, 31, 30, 31][m - 1]
  }

  /** Days from 1 January of year 1 to 1 January of year y, in the proleptic Gregorian calendar. */
  function DaysBeforeYear(y: int): (n: int) {
    365 * (y - 1) + (y - 1) / 4 - (y - 1) / 100 + (y - 1) / 400
  }

  function DaysBeforeMonth(y: int, m: nat): (n: nat)
    requires 1 <= m <= 12
  {
    [0, 31, 59, 90, 120, 151, 181, 212, 243, 273, 304, 334][m - 1] + if m > 2 && Leap(y) then 1 else 0
  }

  const EPOCH := 719_162

  /** Days since 1 January 1970; a day past the end of the month runs on into the next. */
  function DayNumber(y: int, m: nat, d: nat): (n: int)
    requires 1 <= m <= 12
  {
    DaysBeforeYear(y) + DaysBeforeMonth(y, m) + d - 1 - EPOCH
  }

  /** `Date.UTC`: years 0 to 99 mean 1900 to 1999. */
  function DayOf(d: ImapDate): (n: int)
    requires Parsed(d)
  {
    DayNumber(if d.year < 100 then d.year + 1900 else d.year, d.month, d.day)
  }

  /** The `::date` cast of the ISO text: an error for a day the month does not have, or year 0. */
  function SqlDate(d: ImapDate): (r: Option<int>)
    requires Parsed(d)
  {
    if d.year >= 1 && d.day <= DaysInMonth(d.year, d.month) then Some(DayNumber(d.year, d.month, d.day)) else None
  }

  /** A calendar date the two sides read alike. */
  predicate Proper(d: ImapDate)
    requires Parsed(d)
  {
    d.year >= 100 && d.day <= DaysInMonth(d.year, d.month)
  }

  lemma CenturiesApart(y: nat)
    ensures DaysBeforeYear(y + 1900) >= DaysBeforeYear(y) + 365 * 1900
  {
    var z := y - 1;
    assert (z + 1900) / 4 == z / 4 + 475;
    assert (z + 1900) / 100 == z / 100 + 19;
    assert (z + 1900) / 400 >= z / 400;
  }

  /**
   The database and the evaluator read a parsed date alike if and only if it is a day of the calendar
   in the year 100 or later.
  */
  lemma DatesAgree(d: ImapDate)
    requires Parsed(d)
    ensures SqlDate(d) == Some(DayOf(d)) <==> Proper(d)
  {
    if d.year < 100 { CenturiesApart(d.year); }
  }

  // --- the day of a row -------------------------------------------------------------------------

  lemma FourYears(y: int)
    ensures y / 4 == (y - 1) / 4 + (if y % 4 == 0 then 1 else 0)
  {
  }

  lemma HundredYears(y: int)
    ensures y / 100 == (y - 1) / 100 + (if y % 100 == 0 then 1 else 0)
    ensures y % 100 == 0 ==> y % 4 == 0
  {
    assert y == 4 * (25 * (y / 100)) + y % 100;
  }

  lemma FourHundredYears(y: int)
    ensures y / 400 == (y - 1) / 400 + (if y % 400 == 0 then 1 else 0)
    ensures y % 400 == 0 ==> y % 100 == 0
  {
    assert y == 100 * (4 * (y / 400)) + y % 400;
  }

  lemma YearLength(y: int)
    ensures DaysBeforeYear(y + 1) == DaysBeforeYear(y) + 365 + (if Leap(y) then 1 else 0)
  {
    FourYears(y);
    HundredYears(y);
    FourHundredYears(y);
  }

  lemma {:induction false} YearsInOrder(y: int, z: int)
    requires y <= z
    ensures DaysBeforeYear(y) + 365 * (z - y) <= DaysBeforeYear(z)
    decreases z - y
  {
    if y < z {
      YearsInOrder(y, z - 1);
      YearLength(z - 1);
    }
  }

  function YearFrom(day: int, y: int): (r: int)
    requires 0 <= y < 100 && DayNumber(y, 1, 1) <= day < DayNumber(100, 1, 1)
    ensures y <= r < 100 && DayNumber(r, 1, 1) <= day < DayNumber(r + 1, 1, 1)
    decreases 100 - y
  {
    if day < DayNumber(y + 1, 1, 1) then y else YearFrom(day, y + 1)
  }

  function MonthFrom(day: int, y: int, m: nat): (r: nat)
    requires 1 <= m <= 12 && DayNumber(y, m, 1) <= day
    ensures m <= r <= 12 && DayNumber(y, r, 1) <= day && (r < 12 ==> day < DayNumber(y, r + 1, 1))
    decreases 12 - m
  {
    if m == 12 || day < DayNumber(y, m + 1, 1) then m else MonthFrom(day, y, m + 1)
  }

  /** A day in the years 0 to 99. */
  predicate Early(day: int) {
    DayNumber(0, 1, 1) <= day < DayNumber(100, 1, 1)
  }

  /** `utcDay`: the parts of a day put through `Date.UTC` again, which reads the years 0 to 99 as 1900 to 1999. */
  function UtcDay(day: int): (n: int) {
    if Early(day) then
      var y := YearFrom(day, 0);
      var m := MonthFrom(day, y, 1);
      DayNumber(y + 1900, m, day - DayNumber(y, m, 1) + 1)
    else day
  }

  lemma WithinYear(y: int, m: nat, d: nat)
    requires 1 <= m <= 12 && 1 <= d <= 31
    ensures DaysBeforeMonth(y, 1) == 0 && DayNumber(y, 1, 1) <= DayNumber(y, m, d) < DayNumber(y + 1, 1, 1)
  {
    hide DaysBeforeYear;
    YearLength(y);
  }

  /** The day of the month found has at most 31 values. */
  lemma DayFound(day: int, y: int)
    requires DayNumber(y, 1, 1) <= day < DayNumber(y + 1, 1, 1)
    ensures var d := day - DayNumber(y, MonthFrom(day, y, 1), 1) + 1;
            1 <= d <= 31
  {
    hide DaysBeforeYear;
    YearLength(y);
    var m := MonthFrom(day, y, 1);
    assert m < 12 ==> DaysBeforeMonth(y, m + 1) <= DaysBeforeMonth(y, m) + 31;
    assert DaysBeforeMonth(y, 12) + 31 == 365 + (if Leap(y) then 1 else 0);
  }

  lemma NewYears(y: int, z: int)
    requires y <= z
    ensures DayNumber(y, 1, 1) <= DayNumber(z, 1, 1)
  {
    hide DaysBeforeYear;
    YearsInOrder(y, z);
  }

  /** An early day lands in the twentieth century. */
  lemma EarlyMoves(day: int)
    requires Early(day)
    ensures DayNumber(1900, 1, 1) <= UtcDay(day) < DayNumber(2000, 1, 1)
  {
    hide DayNumber;
    var y := YearFrom(day, 0);
    DayFound(day, y);
    var m := MonthFrom(day, y, 1);
    WithinYear(y + 1900, m, day - DayNumber(y, m, 1) + 1);
    NewYears(1900, y + 1900);
    NewYears(y + 1901, 2000);
  }

  lemma LaterMonth(y: int, m: nat, n: nat, d: nat)
    requires 1 <= m < n <= 12 && d <= DaysInMonth(y, m)
    ensures DayNumber(y, m, d) < DayNumber(y, n, 1)
  {
    hide DaysBeforeYear;
  }

  lemma MonthFound(y: int, m: nat, d: nat)
    requires 1 <= m <= 12 && 1 <= d <= DaysInMonth(y, m)
    ensures DayNumber(y, 1, 1) <= DayNumber(y, m, d) && MonthFrom(DayNumber(y, m, d), y, 1) == m
  {
    WithinYear(y, m, d);
    var day := DayNumber(y, m, d);
    var n := MonthFrom(day, y, 1);
    assert DayNumber(y, m, 1) <= day;
    hide DayNumber;
    if n < m {
      if n + 1 < m { LaterMonth(y, n + 1, m, 1); }
    } else if m < n {
      LaterMonth(y, m, n, d);
    }
  }

  lemma YearFound(y: int, m: nat, d: nat)
    requires 0 <= y < 100 && 1 <= m <= 12 && 1 <= d <= 31
    ensures Early(DayNumber(y, m, d)) && YearFrom(DayNumber(y, m, d), 0) == y
  {
    hide DayNumber;
    WithinYear(y, m, d);
    NewYears(0, y);
    NewYears(y + 1, 100);
    var z := YearFrom(DayNumber(y, m, d), 0);
    if z < y { NewYears(z + 1, y); } else if y < z { NewYears(y + 1, z); }
  }

  lemma EarlyParts(y: int, m: nat, d: nat)
    requires 0 <= y < 100 && 1 <= m <= 12 && 1 <= d <= DaysInMonth(y, m)
    ensures Early(DayNumber(y, m, d)) && UtcDay(DayNumber(y, m, d)) == DayNumber(y + 1900, m, d)
  {
    YearFound(y, m, d);
    MonthFound(y, m, d);
    assert DayNumber(y, m, d) - DayNumber(y, m, 1) + 1 == d;
  }

  // --- keys -------------------------------------------------------------------------------------

  datatype TextKey = TextKey(field: string, value: string)

  datatype Comparison = Before | On | Since

  datatype SearchKey =
    | All | Old | New | Recent
    | FlagKey(flag: Flag, want: bool)
    | Keyword(flag: Flag, want: bool)
    | DateKey(sent: bool, cmp: Comparison, date: ImapDate)
    | Larger(size: nat) | Smaller(size: nat)
    | ModseqKey(modseq: Modseq)
    | InSet(uids: seq<Uid>)
    | Text(text: TextKey)
    | Not(key: SearchKey)
    | Or(left: SearchKey, right: SearchKey)
    | And(keys: seq<SearchKey>)

  /** The flag keys name the canonical system flags. */
  const FLAG_KEYS: set<Flag> := {"\\Answered", "\\Deleted", "\\Draft", "\\Flagged", "\\Seen"}

  predicate WellFormed(k: SearchKey) {
    match k
    case FlagKey(flag, _) => flag in FLAG_KEYS
    case DateKey(_, _, date) => Parsed(date)
    case Not(key) => WellFormed(key)
    case Or(left, right) => WellFormed(left) && WellFormed(right)
    case And(keys) => forall x :: x in keys ==> WellFormed(x)
    case _ => true
  }

  predicate NeedsText(k: SearchKey) {
    match k
    case Text(_) => true
    case Not(key) => NeedsText(key)
    case Or(left, right) => NeedsText(left) || NeedsText(right)
    case And(keys) => exists x :: x in keys && NeedsText(x)
    case _ => false
  }

  function Compare(cmp: Comparison, a: int, b: int): (r: bool) {
    match cmp case Before => a < b case On => a == b case Since => a >= b
  }

  /** The UTC day of the internal date, or of the Date header when there is one and the key asks for it. */
  function RowDay(sent: bool, row: Row): (n: int) {
    (if sent && row.content.sentAt.Some? then row.content.sentAt.value else row.content.internalDate) / DAY_MS
  }

  type TextOf = (Uid, TextKey) -> bool

  predicate Evaluate(k: SearchKey, u: Uid, row: Row, text: TextOf)
    requires WellFormed(k)
  {
    match k
    case All => true
    case Old => true
    case New => false
    case Recent => false
    case FlagKey(flag, want) => HasFlag(row.flags, flag) == want
    case Keyword(flag, want) => HasFlag(row.flags, flag) == want
    case DateKey(sent, cmp, date) => Compare(cmp, UtcDay(RowDay(sent, row)), DayOf(date))
    case Larger(size) => row.content.size > size
    case Smaller(size) => row.content.size < size
    case ModseqKey(modseq) => row.modseq >= modseq
    case InSet(uids) => u in uids
    case Text(t) => text(u, t)
    case Not(key) => !Evaluate(key, u, row, text)
    case Or(left, right) => Evaluate(left, u, row, text) || Evaluate(right, u, row, text)
    case And(keys) => forall x :: x in keys ==> Evaluate(x, u, row, text)
  }

  // --- SQL --------------------------------------------------------------------------------------

  datatype Sql =
    | True | False
    | FlagIsAny(flag: Flag)
    | ExistsLowerFlag(flag: Flag)
    | DateCompares(sent: bool, cmp: Comparison, date: ImapDate)
    | SizeAbove(size: nat) | SizeBelow(size: nat)
    | ModseqAtLeast(modseq: Modseq)
    | UidIsAny(uids: seq<Uid>)
    | SqlNot(sql: Sql)
    | SqlOr(left: Sql, right: Sql)
    | SqlAnd(parts: seq<Sql>)

  /** A literal in the query that the database refuses, which fails the whole query. */
  predicate Fails(q: Sql) {
    match q
    case DateCompares(_, _, date) => !Parsed(date) || SqlDate(date).None?
    case SqlNot(sql) => Fails(sql)
    case SqlOr(left, right) => Fails(left) || Fails(right)
    case SqlAnd(parts) => exists x :: x in parts && Fails(x)
    case _ => false
  }

  predicate Holds(q: Sql, u: Uid, row: Row)
    requires !Fails(q)
  {
    match q
    case True => true
    case False => false
    case FlagIsAny(flag) => flag in row.flags
    case ExistsLowerFlag(flag) => exists f :: f in row.flags && Lower(f) == Lower(flag)
    case DateCompares(sent, cmp, date) => Compare(cmp, RowDay(sent, row), SqlDate(date).value)
    case SizeAbove(size) => row.content.size > size
    case SizeBelow(size) => row.content.size < size
    case ModseqAtLeast(modseq) => row.modseq >= modseq
    case UidIsAny(uids) => u in uids
    case SqlNot(sql) => !Holds(sql, u, row)
    case SqlOr(left, right) => Holds(left, u, row) || Holds(right, u, row)
    case SqlAnd(parts) => forall x :: x in parts ==> Holds(x, u, row)
  }

  /** SQL for a key without text keys. */
  function Compile(k: SearchKey): (q: Sql)
    requires !NeedsText(k)
    decreases k, 0
  {
    match k
    case All => True
    case Old => True
    case New => False
    case Recent => False
    case FlagKey(flag, want) => if want then FlagIsAny(flag) else SqlNot(FlagIsAny(flag))
    case Keyword(flag, want) => if want then ExistsLowerFlag(flag) else SqlNot(ExistsLowerFlag(flag))
    case DateKey(sent, cmp, date) => DateCompares(sent, cmp, date)
    case Larger(size) => SizeAbove(size)
    case Smaller(size) => SizeBelow(size)
    case ModseqKey(modseq) => ModseqAtLeast(modseq)
    case InSet(uids) => if uids == [] then False else UidIsAny(uids)
    case Text(_) => False
    case Not(key) => SqlNot(Compile(key))
    case Or(left, right) => SqlOr(Compile(left), Compile(right))
    case And(keys) => if keys == [] then True else SqlAnd(CompileAll(keys))
  }

  function CompileAll(keys: seq<SearchKey>): (qs: seq<Sql>)
    requires forall k :: k in keys ==> !NeedsText(k)
    ensures |qs| == |keys| && forall i :: 0 <= i < |keys| ==> qs[i] == Compile(keys[i])
    decreases keys, 1
  {
    seq(|keys|, i requires 0 <= i < |keys| => Compile(keys[i]))
  }

  // --- the split preserves meaning --------------------------------------------------------------

  /**
   When the two sides agree on a row about a proper date: its day is not in the years 0 to 99, or the
   century it is moved to makes no difference.
  */
  predicate RowFits(cmp: Comparison, date: ImapDate, day: int)
    requires Parsed(date)
  {
    !Early(day) || (if cmp.On? then UtcDay(day) != DayOf(date) else UtcDay(day) < DayOf(date))
  }

  predicate DatesFit(k: SearchKey, row: Row)
    requires WellFormed(k)
  {
    match k
    case DateKey(sent, cmp, date) => Proper(date) && RowFits(cmp, date, RowDay(sent, row))
    case Not(key) => DatesFit(key, row)
    case Or(left, right) => DatesFit(left, row) && DatesFit(right, row)
    case And(keys) => forall x :: x in keys ==> DatesFit(x, row)
    case _ => true
  }

  lemma ProperIsLater(date: ImapDate, day: int)
    requires Parsed(date) && Proper(date) && Early(day)
    ensures day < DayOf(date)
  {
    hide DayNumber;
    NewYears(100, date.year);
    WithinYear(date.year, date.month, date.day);
  }

  /** About a proper date, the query and the evaluator agree on a row if and only if the row fits. */
  lemma DateRowExact(sent: bool, cmp: Comparison, date: ImapDate, u: Uid, row: Row, text: TextOf)
    requires Parsed(date) && Proper(date)
    ensures DateKeyAgrees(sent, cmp, date, u, row, text) <==> RowFits(cmp, date, RowDay(sent, row))
  {
    hide DayNumber, UtcDay, Early, RowDay;
    DatesAgree(date);
    var day := RowDay(sent, row);
    if Early(day) { ProperIsLater(date, day); } else { LateStays(day); }
  }

  lemma LateStays(day: int)
    requires !Early(day)
    ensures UtcDay(day) == day
  {
  }

  lemma FlagKeyExact(flags: seq<Flag>, flag: Flag)
    requires IsNormalized(flags) && flag in FLAG_KEYS
    ensures HasFlag(flags, flag) <==> flag in flags
  {
    SystemFlagsCanonical();
    SystemFlagExact(flags, flag);
  }

  /**
   On normalised flags, and dates that are proper and fit the row, a compiled key holds of a row exactly when
   it evaluates to true.
  */
  lemma {:induction false} CompileAgrees(k: SearchKey, u: Uid, row: Row, text: TextOf)
    requires WellFormed(k) && !NeedsText(k) && DatesFit(k, row) && IsNormalized(row.flags)
    ensures !Fails(Compile(k))
    ensures Holds(Compile(k), u, row) <==> Evaluate(k, u, row, text)
    decreases k, 0
  {
    match k {
      case FlagKey(flag, want) => FlagKeyExact(row.flags, flag);
      case DateKey(sent, cmp, date) => DateRowExact(sent, cmp, date, u, row, text);
      case Not(key) => CompileAgrees(key, u, row, text);
      case Or(left, right) =>
        CompileAgrees(left, u, row, text);
        CompileAgrees(right, u, row, text);
      case And(keys) => if keys != [] { CompileAllAgrees(k, u, row, text); }
      case _ =>
    }
  }

  lemma {:induction false} CompileAllAgrees(k: SearchKey, u: Uid, row: Row, text: TextOf)
    requires k.And? && k.keys != [] && WellFormed(k) && !NeedsText(k) && DatesFit(k, row) && IsNormalized(row.flags)
    ensures !Fails(Compile(k))
    ensures Holds(Compile(k), u, row) <==> Evaluate(k, u, row, text)
    decreases k.keys, 1
  {
    var parts := CompileAll(k.keys);
    forall i | 0 <= i < |k.keys|
      ensures !Fails(parts[i]) && (Holds(parts[i], u, row) <==> Evaluate(k.keys[i], u, row, text))
    {
      assert k.keys[i] in k.keys;
      CompileAgrees(k.keys[i], u, row, text);
    }
    assert Compile(k) == SqlAnd(parts);
    forall x | x in parts ensures !Fails(x) {
      var i :| 0 <= i < |parts| && parts[i] == x;
    }
    if Holds(SqlAnd(parts), u, row) {
      forall x | x in k.keys ensures Evaluate(x, u, row, text) {
        var i :| 0 <= i < |k.keys| && k.keys[i] == x;
        assert parts[i] in parts;
      }
    }
    if Evaluate(k, u, row, text) {
      forall x | x in parts ensures Holds(x, u, row) {
        var i :| 0 <= i < |parts| && parts[i] == x;
        assert k.keys[i] in k.keys;
      }
    }
  }

  /** A date about which the two sides agree on every row a mailbox can hold. */
  predicate FitsAllRows(cmp: Comparison, date: ImapDate)
    requires Parsed(date)
  {
    date.day <= DaysInMonth(date.year, date.month) &&
    (if cmp.On? then date.year >= 100 && !(1900 <= date.year <= 1999) else date.year >= 2000)
  }

  function RowOfDay(day: int): (r: Row) {
    Row(0, [], Content("", 0, day * DAY_MS, None))
  }

  lemma RowOfDayIs(sent: bool, day: int)
    ensures RowDay(sent, RowOfDay(day)) == day
  {
  }

  lemma ProperYears(date: ImapDate)
    requires Parsed(date) && Proper(date)
    ensures date.year >= 2000 <==> DayOf(date) >= DayNumber(2000, 1, 1)
    ensures 1900 <= date.year <= 1999 <==> DayNumber(1900, 1, 1) <= DayOf(date) < DayNumber(2000, 1, 1)
  {
    hide DayNumber;
    WithinYear(date.year, date.month, date.day);
    if date.year >= 2000 { NewYears(2000, date.year); } else { NewYears(date.year + 1, 2000); }
    if date.year >= 1900 { NewYears(1900, date.year); } else { NewYears(date.year + 1, 1900); }
  }

  /** A row on which the two sides differ about a date that does not fit all rows. */
  function Witness(cmp: Comparison, date: ImapDate): (day: int)
    requires Parsed(date)
  {
    if !Proper(date) then (if SqlDate(date).None? then 0 else if cmp.On? then DayOf(date) else DayNumber(100, 1, 1))
    else if cmp.On? then DayNumber(date.year - 1900, date.month, date.day)
    else DayNumber(99, 12, 31)
  }

  lemma WitnessDiffers(sent: bool, cmp: Comparison, date: ImapDate, text: TextOf)
    requires Parsed(date) && !FitsAllRows(cmp, date)
    ensures !DateKeyAgrees(sent, cmp, date, 1, RowOfDay(Witness(cmp, date)), text)
  {
    hide DayNumber, UtcDay, Early;
    var day := Witness(cmp, date);
    RowOfDayIs(sent, day);
    if Proper(date) {
      WitnessOut(cmp, date);
      DateRowExact(sent, cmp, date, 1, RowOfDay(day), text);
    } else if SqlDate(date).Some? {
      EarlyDateDiffers(cmp, date);
    }
  }

  lemma WitnessOut(cmp: Comparison, date: ImapDate)
    requires Parsed(date) && Proper(date) && !FitsAllRows(cmp, date)
    ensures !RowFits(cmp, date, Witness(cmp, date))
  {
    hide DayNumber, UtcDay, Early;
    ProperYears(date);
    if cmp.On? {
      assert DaysInMonth(date.year, date.month) <= DaysInMonth(date.year - 1900, date.month);
      EarlyParts(date.year - 1900, date.month, date.day);
    } else {
      EarlyParts(99, 12, 31);
      assert DayNumber(1999, 12, 31) + 1 == DayNumber(2000, 1, 1) by { LastDay(); }
    }
  }

  lemma LastDay()
    ensures DayNumber(1999, 12, 31) + 1 == DayNumber(2000, 1, 1) && DayNumber(99, 12, 31) + 1 == DayNumber(100, 1, 1)
  {
  }

  lemma EarlyDateDiffers(cmp: Comparison, date: ImapDate)
    requires Parsed(date) && !Proper(date) && SqlDate(date).Some?
    ensures var day := Witness(cmp, date);
            Compare(cmp, UtcDay(day), DayOf(date)) != Compare(cmp, day, SqlDate(date).value)
  {
    hide DayNumber;
    WithinYear(date.year, date.month, date.day);
    WithinYear(date.year + 1900, date.month, date.day);
    NewYears(date.year + 1, 100);
    NewYears(101, date.year + 1900);
    WithinYear(100, 1, 1);
  }

  /**
   For one date key: the query says what the evaluator says of every row if and only if the date is one
   of the calendar and, for ON, of the year 100 or later outside 1900 to 1999, and for the others of the
   year 2000 or later.
  */
  lemma DateKeyExact(sent: bool, cmp: Comparison, date: ImapDate, text: TextOf)
    requires Parsed(date)
    ensures (forall u: Uid, row: Row :: DateKeyAgrees(sent, cmp, date, u, row, text)) <==> FitsAllRows(cmp, date)
  {
    if FitsAllRows(cmp, date) {
      forall u: Uid, row: Row ensures DateKeyAgrees(sent, cmp, date, u, row, text) {
        ProperYears(date);
        if Early(RowDay(sent, row)) { EarlyMoves(RowDay(sent, row)); }
        DateRowExact(sent, cmp, date, u, row, text);
      }
    } else {
      WitnessDiffers(sent, cmp, date, text);
    }
  }

  ghost predicate DateKeyAgrees(sent: bool, cmp: Comparison, date: ImapDate, u: Uid, row: Row, text: TextOf)
    requires Parsed(date)
  {
    var k := DateKey(sent, cmp, date);
    !Fails(Compile(k)) && (Holds(Compile(k), u, row) <==> Evaluate(k, u, row, text))
  }

  // --- search -----------------------------------------------------------------------------------

  function Select(criteria: seq<SearchKey>, wantText: bool): (r: seq<SearchKey>)
    ensures forall k :: k in r <==> k in criteria && NeedsText(k) == wantText
  {
    if criteria == [] then []
    else (if NeedsText(criteria[0]) == wantText then [criteria[0]] else []) + Select(criteria[1..], wantText)
  }

  predicate RowMatches(qs: seq<Sql>, u: Uid, row: Row)
    requires forall q :: q in qs ==> !Fails(q)
  {
    forall q :: q in qs ==> Holds(q, u, row)
  }

  function Candidates(mb: Mailbox, maxUid: Uid, qs: seq<Sql>): (r: set<Uid>)
    requires forall q :: q in qs ==> !Fails(q)
  {
    set u | u in mb.messages && u <= maxUid && RowMatches(qs, u, mb.messages[u])
  }

  predicate Matches(criteria: seq<SearchKey>, u: Uid, row: Row, text: TextOf)
    requires forall k :: k in criteria ==> WellFormed(k)
  {
    forall k :: k in criteria ==> Evaluate(k, u, row, text)
  }

  ghost function Found(mb: Mailbox, v: View, criteria: seq<SearchKey>, text: TextOf): set<Uid>
    requires forall k :: k in criteria ==> WellFormed(k)
  {
    set u | u in mb.messages && u <= MaxUid(v.uids) && u !in v.pending && Matches(criteria, u, mb.messages[u], text)
  }

  /** Every date the database is asked about is proper and fits every row. */
  ghost predicate AllFit(criteria: seq<SearchKey>, mb: Mailbox)
    requires forall k :: k in criteria ==> WellFormed(k)
  {
    forall k, u :: k in criteria && !NeedsText(k) && u in mb.messages ==> DatesFit(k, mb.messages[u])
  }

  lemma SqlPartAgrees(mb: Mailbox, u: Uid, criteria: seq<SearchKey>, inSql: seq<SearchKey>, text: TextOf)
    requires forall k :: k in criteria ==> WellFormed(k)
    requires Valid(mb) && u in mb.messages && AllFit(criteria, mb)
    requires inSql == Select(criteria, false)
    ensures forall q :: q in CompileAll(inSql) ==> !Fails(q)
    ensures RowMatches(CompileAll(inSql), u, mb.messages[u]) <==>
            (forall k :: k in inSql ==> Evaluate(k, u, mb.messages[u], text))
  {
    assert ValidRow(mb, u, mb.messages[u]);
    var row := mb.messages[u];
    var qs := CompileAll(inSql);
    forall i | 0 <= i < |inSql| ensures !Fails(qs[i]) && (Holds(qs[i], u, row) <==> Evaluate(inSql[i], u, row, text)) {
      assert inSql[i] in inSql;
      CompileAgrees(inSql[i], u, row, text);
    }
    forall q | q in qs ensures !Fails(q) { var i :| 0 <= i < |qs| && qs[i] == q; }
    if RowMatches(qs, u, row) {
      forall k | k in inSql ensures Evaluate(k, u, row, text) {
        var i :| 0 <= i < |inSql| && inSql[i] == k;
        assert qs[i] in qs;
      }
    }
    if forall k :: k in inSql ==> Evaluate(k, u, row, text) {
      forall q | q in qs ensures Holds(q, u, row) {
        var i :| 0 <= i < |qs| && qs[i] == q;
        assert inSql[i] in inSql;
      }
    }
  }

  /**
   The UIDs matching the criteria: SQL first, then the text keys, row by row; None when the database
   refuses the query. On a valid mailbox and dates that fit its rows this is, in ascending order, every
   stored message up to the view's largest UID that is not a placeholder and satisfies the whole criteria.
  */
  method Search(mb: Mailbox, v: View, criteria: seq<SearchKey>, text: TextOf) returns (r: Option<seq<Uid>>)
    requires forall k :: k in criteria ==> WellFormed(k)
    ensures r.None? <==> exists k :: k in criteria && !NeedsText(k) && Fails(Compile(k))
    ensures Valid(mb) && AllFit(criteria, mb) && r.Some? ==> r == Some(Sorted(Found(mb, v, criteria, text)))
  {
    var inSql, inJs := Select(criteria, false), Select(criteria, true);
    var qs := CompileAll(inSql);
    FailureComesFrom(criteria, inSql, qs);
    if exists q :: q in qs && Fails(q) {
      return None;
    }
    ghost var found := Candidates(mb, MaxUid(v.uids), qs);
    var rows := Sorted(Candidates(mb, MaxUid(v.uids), qs));
    SortedAscending(found);
    var out := KeepMatching(mb, v, rows, inJs, text);
    WithoutSorted(found, Dropped(mb, v, rows, inJs, text));
    if Valid(mb) && AllFit(criteria, mb) {
      FoundIs(mb, v, criteria, inSql, inJs, qs, Dropped(mb, v, rows, inJs, text), text);
    }
    r := Some(out);
  }

  predicate Kept(mb: Mailbox, v: View, inJs: seq<SearchKey>, u: Uid, text: TextOf)
    requires forall k :: k in inJs ==> WellFormed(k)
    requires u in mb.messages
  {
    u !in v.pending && Matches(inJs, u, mb.messages[u], text)
  }

  ghost function Dropped(mb: Mailbox, v: View, rows: seq<Uid>, inJs: seq<SearchKey>, text: TextOf): set<Uid>
    requires forall k :: k in inJs ==> WellFormed(k)
    requires forall u :: u in rows ==> u in mb.messages
  {
    set u | u in rows && !Kept(mb, v, inJs, u, text)
  }

  method KeepMatching(mb: Mailbox, v: View, rows: seq<Uid>, inJs: seq<SearchKey>, text: TextOf) returns (out: seq<Uid>)
    requires forall k :: k in inJs ==> WellFormed(k)
    requires forall u :: u in rows ==> u in mb.messages
    ensures out == Without(rows, Dropped(mb, v, rows, inJs, text))
  {
    hide Kept;
    out := [];
    ghost var dropped := Dropped(mb, v, rows, inJs, text);
    assert rows[..0] == [];
    for i := 0 to |rows|
      invariant out == Without(rows[..i], dropped)
    {
      var u := rows[i];
      assert u in rows;
      WithoutStep(rows, i, dropped);
      if Kept(mb, v, inJs, u, text) {
        out := out + [u];
      }
    }
    assert rows[..|rows|] == rows;
  }

  lemma FailureComesFrom(criteria: seq<SearchKey>, inSql: seq<SearchKey>, qs: seq<Sql>)
    requires inSql == Select(criteria, false) && qs == CompileAll(inSql)
    ensures (exists q :: q in qs && Fails(q)) <==> (exists k :: k in criteria && !NeedsText(k) && Fails(Compile(k)))
  {
    if q :| q in qs && Fails(q) {
      var i :| 0 <= i < |qs| && qs[i] == q;
      assert inSql[i] in inSql && Fails(Compile(inSql[i]));
    }
    if k :| k in criteria && !NeedsText(k) && Fails(Compile(k)) {
      assert k in inSql;
      var i :| 0 <= i < |inSql| && inSql[i] == k;
      assert qs[i] in qs;
    }
  }

  lemma FoundIs(mb: Mailbox, v: View, criteria: seq<SearchKey>, inSql: seq<SearchKey>, inJs: seq<SearchKey>,
          qs: seq<Sql>,
      dropped: set<Uid>, text: TextOf)
    requires forall k :: k in criteria ==> WellFormed(k)
    requires Valid(mb) && AllFit(criteria, mb)
    requires inSql == Select(criteria, false) && inJs == Select(criteria, true) && qs == CompileAll(inSql)
    requires forall q :: q in qs ==> !Fails(q)
    requires dropped <= Candidates(mb, MaxUid(v.uids), qs)
    requires forall u :: u in Candidates(mb, MaxUid(v.uids), qs) ==>
      (u in dropped <==> !Kept(mb, v, inJs, u, text))
    ensures Candidates(mb, MaxUid(v.uids), qs) - dropped == Found(mb, v, criteria, text)
  {
    forall u: Uid ensures u in Candidates(mb, MaxUid(v.uids), qs) - dropped <==> u in Found(mb, v, criteria, text) {
      if u in mb.messages {
        SqlPartAgrees(mb, u, criteria, inSql, text);
        SplitMatches(criteria, inSql, inJs, u, mb.messages[u], text);
      }
    }
  }

  lemma SplitMatches(criteria: seq<SearchKey>, inSql: seq<SearchKey>, inJs: seq<SearchKey>, u: Uid, row: Row,
          text: TextOf)
    requires forall k :: k in criteria ==> WellFormed(k)
    requires inSql == Select(criteria, false) && inJs == Select(criteria, true)
    ensures Matches(criteria, u, row, text) <==> Matches(inSql, u, row, text) && Matches(inJs, u, row, text)
  {
    hide Evaluate;
    forall k | k in criteria ensures k in inSql || k in inJs {
    }
  }

  // --- dates that fit, and a row that does not ---------------------------------------------------

  /** Every date of the key fits all rows. */
  predicate KeyFitsAllRows(k: SearchKey)
    requires WellFormed(k)
  {
    match k
    case DateKey(_, cmp, date) => FitsAllRows(cmp, date)
    case Not(key) => KeyFitsAllRows(key)
    case Or(left, right) => KeyFitsAllRows(left) && KeyFitsAllRows(right)
    case And(keys) => forall x :: x in keys ==> KeyFitsAllRows(x)
    case _ => true
  }

  /** Such a key means the same to the database as to the evaluator, on any row whatsoever. */
  lemma {:induction false} KeyFitsEveryRow(k: SearchKey, row: Row)
    requires WellFormed(k) && KeyFitsAllRows(k)
    ensures DatesFit(k, row)
  {
    match k
    case DateKey(sent, cmp, date) =>
      ProperYears(date);
      if Early(RowDay(sent, row)) { EarlyMoves(RowDay(sent, row)); }
    case Not(key) => KeyFitsEveryRow(key, row);
    case Or(left, right) =>
      KeyFitsEveryRow(left, row);
      KeyFitsEveryRow(right, row);
    case And(keys) =>
      forall x | x in keys ensures DatesFit(x, row) { KeyFitsEveryRow(x, row); }
    case _ =>
  }

  /** An appended date and time, as milliseconds since 1970; the zone, in minutes, moves it. */
  function Instant(date: ImapDate, minutes: nat, zone: int): (t: int)
    requires Parsed(date)
  {
    DayOf(date) * DAY_MS + (minutes - zone) * 60_000
  }

  /** The database, asked for the key, answers with this row. */
  predicate Finds(k: SearchKey, u: Uid, row: Row)
    requires !NeedsText(k)
  {
    !Fails(Compile(k)) && Holds(Compile(k), u, row)
  }

  /** A message appended with the date and time 1-Jan-0100 00:00:00 +1400. */
  function AppendedEarly(): (row: Row) {
    Row(0, [], Content("", 0, Instant(ImapDate(100, 1, 1), 0, 14 * 60), None))
  }

  lemma AppendedDay()
    ensures RowDay(false, AppendedEarly()) == DayNumber(99, 12, 31)
  {
    hide DayNumber;
    LastDay();
    assert Instant(ImapDate(100, 1, 1), 0, 14 * 60) == DayNumber(99, 12, 31) * DAY_MS + 10 * 60 * 60_000;
  }

  /**
   That message is of the last day of the year 99. BEFORE 1-Jan-1500 by itself finds it in the database;
   inside an OR with a text key that does not match, the evaluator reads its year as 1999 and does not.
  */
  lemma EarlyRowDisagrees(u: Uid, text: TextOf, t: TextKey)
    requires !text(u, t)
    ensures var k := DateKey(false, Before, ImapDate(1500, 1, 1));
            && Proper(ImapDate(1500, 1, 1)) && Finds(k, u, AppendedEarly())
            && !Evaluate(k, u, AppendedEarly(), text) && !Evaluate(Or(k, Text(t)), u, AppendedEarly(), text)
  {
    hide DayNumber, UtcDay, Early, RowDay, AppendedEarly;
    var date := ImapDate(1500, 1, 1);
    AppendedDay();
    EarlyParts(99, 12, 31);
    ProperIsLater(date, DayNumber(99, 12, 31));
    NewYears(1500, 1999);
    WithinYear(1999, 12, 31);
    DatesAgree(date);
    assert UtcDay(RowDay(false, AppendedEarly())) >= DayOf(date);
  }
}
