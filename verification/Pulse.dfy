/**
  * A tail thread's report of its own liveness, packed into one 64-bit word.
  */
module Pulse {

  /** Seconds take the low 62 bits of the word, the tag the two above. */
  const SECS_SPAN: nat := 0x4000_0000_0000_0000
  const TAG_BEAT: nat := 0
  const TAG_BUSY: nat := 1
  const TAG_RETIRED: nat := 2

  type Word = w: int | 0 <= w < 4 * SECS_SPAN

  /** The loop turned at this second, has been in a long rebuild since it, or the thread has returned. */
  datatype Report = Beat(at: Word) | Busy(since: Word) | Retired

  /** Tag and seconds share no bit, so joining them is adding them. */
  function Pack(tag: nat, secs: Word): Word
    requires tag < 4
  {
    tag * SECS_SPAN + secs % SECS_SPAN
  }

  /** The word a report is stored as. */
  function Encode(r: Report): Word {
    match r
    case Beat(at) => Pack(TAG_BEAT, at)
    case Busy(since) => Pack(TAG_BUSY, since)
    case Retired => Pack(TAG_RETIRED, 0)
  }

  function Decode(word: Word): Report {
    var secs, tag := word % SECS_SPAN, word / SECS_SPAN;
    if tag == TAG_BUSY then Busy(secs) else if tag == TAG_RETIRED then Retired else Beat(secs)
  }

  /** The report with its second cut to what the word has room for. */
  function Kept(r: Report): Report {
    match r
    case Beat(at) => Beat(at % SECS_SPAN)
    case Busy(since) => Busy(since % SECS_SPAN)
    case Retired => Retired
  }

  /** A report reads back as it was stored, and unchanged unless its second needs more than 62 bits. */
  lemma ReportReadsBack(r: Report)
    ensures Decode(Encode(r)) == Kept(r)
    ensures r.Beat? ==> (Kept(r) == r <==> r.at < SECS_SPAN)
    ensures r.Busy? ==> (Kept(r) == r <==> r.since < SECS_SPAN)
  {
    match r
    case Beat(at) => PackReadsBack(TAG_BEAT, at);
    case Busy(since) => PackReadsBack(TAG_BUSY, since);
    case Retired => PackReadsBack(TAG_RETIRED, 0);
  }

  lemma PackReadsBack(tag: nat, secs: Word)
    requires tag < 4
    ensures Pack(tag, secs) / SECS_SPAN == tag && Pack(tag, secs) % SECS_SPAN == secs % SECS_SPAN
  {
  }

  /** The shared word a tail writes and its supervisor reads. */
  class TailPulse {
    var word: Word

    constructor (now: Word)
      ensures Decode(word) == Beat(now % SECS_SPAN)
    {
      ReportReadsBack(Beat(now));
      word := Pack(TAG_BEAT, now);
    }

    method Load() returns (r: Report)
      ensures r == Decode(word)
    {
      var secs, tag := word % SECS_SPAN, word / SECS_SPAN;
      r := if tag == TAG_BUSY then Busy(secs) else if tag == TAG_RETIRED then Retired else Beat(secs);
    }

    method Stamp(now: Word)
      modifies this
      ensures Decode(word) == Beat(now % SECS_SPAN)
    {
      ReportReadsBack(Beat(now));
      word := Pack(TAG_BEAT, now);
    }

    method EnterBusy(now: Word)
      modifies this
      ensures Decode(word) == Busy(now % SECS_SPAN)
    {
      ReportReadsBack(Busy(now));
      word := Pack(TAG_BUSY, now);
    }

    method Retire()
      modifies this
      ensures Decode(word) == Retired
    {
      ReportReadsBack(Retired);
      word := Pack(TAG_RETIRED, 0);
    }
  }
}
