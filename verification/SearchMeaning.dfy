/**
 What the keys of SEARCH mean (section 6.4.4 of RFC 9051), apart from how they are evaluated or compiled: flags are
 case-folded, dates are instants compared with the midnights of the calendar, in UTC.
*/
module SearchMeaning {
  import opened Flags
  import opened MailStore
  import ViewModel
  import opened Search

  // --- the calendar -----------------------------------------------------------------------------

  /** The day after a day of the calendar. */
  function Tomorrow(d: ImapDate): (r: ImapDate)
    requires Parsed(d)
  {
    if d.day < DaysInMonth(d.year, d.month) then d.(day := d.day + 1)
    else if d.month < 12 then ImapDate(d.year, d.month + 1, 1)
    else ImapDate(d.year + 1, 1, 1)
  }

  /** Days are numbered one after the other from 1 January 1970 on, through every month and leap year. */
  lemma DaysInOrder(d: ImapDate)
    requires Parsed(d) && d.day <= DaysInMonth(d.year, d.month)
    ensures DayNumber(1970, 1, 1) == 0
    ensures var t := Tomorrow(d);
            1 <= t.month <= 12 && DayNumber(t.year, t.month, t.day) == DayNumber(d.year, d.month, d.day) + 1
  {
    YearLength(d.year);
    hide DaysBeforeYear;
    assert DayNumber(1970, 1, 1) == 0 by { FirstDay(); }
  }

  lemma FirstDay()
    ensures DayNumber(1970, 1, 1) == 0
  {
  }

  // --- keys -------------------------------------------------------------------------------------

  /** The midnight a date starts with, in milliseconds since 1970. */
  function Midnight(d: ImapDate): (t: int)
    requires Parsed(d)
  {
    DayNumber(d.year, d.month, d.day) * 86_400_000
  }

  /**
   The instant a date key looks at: the Date header's where the key asks for it and there is one, else the
   arrival.
  */
  function InstantOf(sent: bool, row: Row): (t: int) {
    match row.content.sentAt
    case Some(t) => if sent then t else row.content.internalDate
    case None => row.content.internalDate
  }

  ghost predicate Satisfies(k: SearchKey, u: Uid, row: Row, text: TextOf)
    requires WellFormed(k)
  {
    match k
    case All => true
    case Old => true
    case New => false
    case Recent => false
    case FlagKey(flag, want) => want <==> Lower(flag) in Folded(row.flags)
    case Keyword(flag, want) => want <==> Lower(flag) in Folded(row.flags)
    case DateKey(sent, cmp, date) =>
      var at, start := InstantOf(sent, row), Midnight(date);
      (match cmp
       case Before => at < start
       case On => start <= at < start + 86_400_000
       case Since => start <= at)
    case Larger(size) => size < row.content.size
    case Smaller(size) => row.content.size < size
    case ModseqKey(modseq) => !(row.modseq < modseq)
    case InSet(uids) => u in uids
    case Text(t) => text(u, t)
    case Not(key) => !Satisfies(key, u, row, text)
    case Or(left, right) => Satisfies(left, u, row, text) || Satisfies(right, u, row, text)
    case And(keys) => forall x :: x in keys ==> Satisfies(x, u, row, text)
  }

  lemma DateMeans(sent: bool, cmp: Comparison, date: ImapDate, u: Uid, row: Row, text: TextOf)
    requires Parsed(date) && Proper(date) && RowFits(cmp, date, RowDay(sent, row))
    ensures var k := DateKey(sent, cmp, date); Evaluate(k, u, row, text) <==> Satisfies(k, u, row, text)
  {
    hide DayNumber, UtcDay, Early;
    var day := RowDay(sent, row);
    if Early(day) { ProperIsLater(date, day); } else { LateStays(day); }
    DayOfInstant(InstantOf(sent, row), DayNumber(date.year, date.month, date.day));
  }

  lemma DayOfInstant(at: int, day: int)
    ensures at / DAY_MS < day <==> at < day * 86_400_000
    ensures at / DAY_MS == day <==> day * 86_400_000 <= at < day * 86_400_000 + 86_400_000
  {
  }

  /** A key, however nested, whose dates fit the row, is evaluated as it means. */
  lemma {:induction false} KeyMeans(k: SearchKey, u: Uid, row: Row, text: TextOf)
    requires WellFormed(k) && DatesFit(k, row)
    ensures Evaluate(k, u, row, text) <==> Satisfies(k, u, row, text)
    decreases k
  {
    hide Midnight, RowDay, RowFits, InstantOf;
    match k
    case FlagKey(flag, _) => HasFlagFolded(row.flags, flag);
    case Keyword(flag, _) => HasFlagFolded(row.flags, flag);
    case DateKey(sent, cmp, date) => DateMeans(sent, cmp, date, u, row, text);
    case Not(key) => KeyMeans(key, u, row, text);
    case Or(left, right) =>
      KeyMeans(left, u, row, text);
      KeyMeans(right, u, row, text);
    case And(keys) =>
      forall x | x in keys ensures Evaluate(x, u, row, text) <==> Satisfies(x, u, row, text) {
        KeyMeans(x, u, row, text);
      }
    case _ =>
  }

  /**
   SEARCH finds, of the messages the client knows and that are not expunged, exactly those that satisfy every
   key.
  */
  lemma SearchFinds(mb: Mailbox, v: ViewModel.View, criteria: seq<SearchKey>, text: TextOf)
    requires forall k :: k in criteria ==> WellFormed(k)
    requires forall k, u :: k in criteria && u in mb.messages ==> DatesFit(k, mb.messages[u])
    ensures forall u :: u in Found(mb, v, criteria, text) <==>
              && u in mb.messages && u <= ViewModel.MaxUid(v.uids) && u !in v.pending
              && forall k :: k in criteria ==> Satisfies(k, u, mb.messages[u], text)
  {
    hide Evaluate, Satisfies, DatesFit, WellFormed;
    forall k, u | k in criteria && u in mb.messages
      ensures Evaluate(k, u, mb.messages[u], text) <==> Satisfies(k, u, mb.messages[u], text)
    {
      KeyMeans(k, u, mb.messages[u], text);
    }
  }
}
