/** Backup session ids: a time to the second, and from the second id of that second on a sequence
    number. */
module SessionId {
  import opened Texts

  const MAX_SEQUENCE: nat := 0xFFFF_FFFF_FFFF_FFFF

  /** Whole seconds before the year 10000, the times that have a text of fifteen characters. */
  const TIMES: nat := 253402300800

  const DAY: nat := 86400

  /** Writing and reading "YYYYMMDD-HHMMSS", which this model leaves to the calendar library. */
  datatype Calendar = Calendar(show: nat -> string, read: string -> Option<nat>)

  ghost predicate Sound(cal: Calendar) {
    forall t: nat {:trigger cal.show(t)} | t < TIMES :: |cal.show(t)| == 15 && cal.read(cal.show(t)) == Some(t)
  }

  datatype Id = Id(time: nat, sequence: nat)

  // ----- Decimal numbers -----

  function Digit(d: nat): char
    requires d < 10
  {
    ('0' as int + d) as char
  }

  function ShowNumber(n: nat): (s: string)
    ensures s != ""
  {
    (if n < 10 then "" else ShowNumber(n / 10)) + [Digit(n % 10)]
  }

  predicate IsDigit(c: char) { '0' <= c <= '9' }

  function DigitValue(c: char): nat
    requires IsDigit(c)
  {
    (c as int) - ('0' as int)
  }

  function ReadDigits(s: string): Option<nat> {
    if s == "" then Some(0)
    else
      var last := s[|s| - 1];
      if !IsDigit(last) then None else
      match ReadDigits(s[..|s| - 1])
      case None => None
      case Some(n) => Some(10 * n + DigitValue(last))
  }

  /** Reading an unsigned 64-bit number: a leading "+" is accepted, an overflow is not. */
  function ReadSequence(s: string): (n: Option<nat>)
    ensures n.Some? ==> n.value <= MAX_SEQUENCE
  {
    var digits := if s != "" && s[0] == '+' then s[1..] else s;
    if digits == "" then None else
    match ReadDigits(digits)
    case Some(n) => if n <= MAX_SEQUENCE then Some(n) else None
    case None => None
  }

  lemma DigitIsItsValue(d: nat)
    requires d < 10
    ensures IsDigit(Digit(d)) && DigitValue(Digit(d)) == d
    ensures Digit(d) == "0123456789"[d]
  {
  }

  lemma ReadOneMore(front: string, last: char)
    requires IsDigit(last) && ReadDigits(front).Some?
    ensures ReadDigits(front + [last]) == Some(10 * ReadDigits(front).value + DigitValue(last))
  {
    hide IsDigit, DigitValue;
    assert (front + [last])[..|front|] == front;
  }

  lemma {:induction false} ReadDigitsShowNumber(n: nat)
    ensures ReadDigits(ShowNumber(n)) == Some(n)
    ensures ShowNumber(n)[0] != '+'
  {
    DigitIsItsValue(n % 10);
    hide Digit, IsDigit, DigitValue;
    if n >= 10 {
      ReadDigitsShowNumber(n / 10);
      ReadOneMore(ShowNumber(n / 10), Digit(n % 10));
    } else {
      assert ReadDigits("") == Some(0);
      ReadOneMore("", Digit(n));
    }
    hide ReadDigits;
    assert 10 * (n / 10) + n % 10 == n;
  }

  // ----- Ids -----

  function Format(cal: Calendar, id: Id): string {
    if id.sequence == 1 then cal.show(id.time) else cal.show(id.time) + "-" + ShowNumber(id.sequence)
  }

  /** The id of a second's text and what follows it. */
  function ParseParts(cal: Calendar, stamp: string, suffix: string): (id: Option<Id>)
    ensures id.Some? ==> 1 <= id.value.sequence <= MAX_SEQUENCE
  {
    match cal.read(stamp)
    case None => None
    case Some(time) =>
      if suffix == "" then Some(Id(time, 1)) else
      if suffix[0] != '-' then None else
      match ReadSequence(suffix[1..])
      case None => None
      case Some(sequence) => if sequence < 2 then None else Some(Id(time, sequence))
  }

  function Parse(cal: Calendar, text: string): (id: Option<Id>)
    ensures id.Some? ==> 1 <= id.value.sequence <= MAX_SEQUENCE
  {
    if |text| < 15 then None else ParseParts(cal, text[..15], text[15..])
  }

  lemma ParseFormat(cal: Calendar, id: Id)
    requires Sound(cal) && id.time < TIMES
    requires 1 <= id.sequence <= MAX_SEQUENCE
    ensures Parse(cal, Format(cal, id)) == Some(id)
  {
    var stamp := cal.show(id.time);
    assert |stamp| == 15 && cal.read(stamp) == Some(id.time);
    hide Sound, ReadSequence, ShowNumber;
    if id.sequence == 1 {
      assert stamp[..15] == stamp && stamp[15..] == "";
    } else {
      var digits := ShowNumber(id.sequence);
      ReadSequenceShown(id.sequence);
      assert ("-" + digits)[1..] == digits;
      FrontAndBack(stamp, "-" + digits);
      assert Format(cal, id) == stamp + ("-" + digits);
    }
  }

  lemma FrontAndBack(front: string, back: string)
    ensures (front + back)[..|front|] == front && (front + back)[|front|..] == back
  {
  }

  lemma ReadSequenceShown(n: nat)
    requires n <= MAX_SEQUENCE
    ensures ReadSequence(ShowNumber(n)) == Some(n)
  {
    ReadDigitsShowNumber(n);
    hide ReadDigits, ShowNumber;
  }

  lemma {:induction false} ShowNumberRead(s: string)
    requires s != "" && s[0] != '0' && ReadDigits(s).Some?
    ensures ReadDigits(s).value > 0 && ShowNumber(ReadDigits(s).value) == s
  {
    var front, last := s[..|s| - 1], s[|s| - 1];
    assert s == front + [last];
    assert IsDigit(last) && Digit(DigitValue(last)) == last;
    var d := DigitValue(last);
    if front == "" {
      assert ReadDigits("") == Some(0);
    } else {
      assert front[0] == s[0];
      ShowNumberRead(front);
      var n := ReadDigits(front).value;
      assert (10 * n + d) / 10 == n && (10 * n + d) % 10 == d;
    }
  }

  /** A name that is read as an id is the name that id is written as, apart from the spelling of its time
      and a "+" or zeros in front of its number. */
  lemma FormatParse(cal: Calendar, text: string)
    requires Parse(cal, text).Some? && cal.show(Parse(cal, text).value.time) == text[..15]
    requires |text| > 16 ==> text[16] != '+' && text[16] != '0'
    ensures Format(cal, Parse(cal, text).value) == text
  {
    var stamp, suffix := text[..15], text[15..];
    assert text == stamp + suffix;
    if suffix != "" {
      var digits := suffix[1..];
      assert suffix == "-" + digits;
      assert digits != "" ==> digits[0] == text[16];
      ShowNumberRead(digits);
    }
  }

  /** The sequence number of `text` if it is an id of the second `now`. */
  function SequenceAt(cal: Calendar, now: nat, text: string): (sequence: Option<nat>)
    ensures sequence.Some? ==> 1 <= sequence.value <= MAX_SEQUENCE && Parse(cal, text).Some?
  {
    match Parse(cal, text)
    case None => None
    case Some(id) => if cal.show(id.time) == cal.show(now) then Some(id.sequence) else None
  }

  /** The largest sequence number used for the second `now`. */
  function LastSequence(cal: Calendar, now: nat, existing: seq<string>): (last: Option<nat>)
    ensures last.Some? ==> 1 <= last.value <= MAX_SEQUENCE
    ensures forall text :: text in existing && SequenceAt(cal, now, text).Some? ==>
              last.Some? && SequenceAt(cal, now, text).value <= last.value
    ensures last.Some? ==> exists text :: text in existing && SequenceAt(cal, now, text) == last
  {
    if existing == [] then None
    else
      var last, head := LastSequence(cal, now, existing[1..]), SequenceAt(cal, now, existing[0]);
      if last.None? || (head.Some? && head.value > last.value) then head else last
  }

  /** The next id for the second `now`; None once the largest sequence number is used. */
  function NextSessionId(cal: Calendar, now: nat, existing: seq<string>): Option<string> {
    match LastSequence(cal, now, existing)
    case None => Some(Format(cal, Id(now, 1)))
    case Some(last) => if last == MAX_SEQUENCE then None else Some(Format(cal, Id(now, last + 1)))
  }

  /** `id` names the second `now`, is none of the existing names and comes after every id of that second. */
  ghost predicate ComesNext(cal: Calendar, now: nat, existing: seq<string>, id: string) {
    && SequenceAt(cal, now, id).Some?
    && Parse(cal, id).value.time == now
    && id !in existing
    && forall text :: text in existing && SequenceAt(cal, now, text).Some? ==>
         SequenceAt(cal, now, text).value < SequenceAt(cal, now, id).value
  }

  /** The next id names the second `now`, comes after every id of that second, and so is none of the
      existing names. It runs out exactly when the last number is taken. */
  lemma NextIsNew(cal: Calendar, now: nat, existing: seq<string>)
    requires Sound(cal) && now < TIMES
    ensures NextSessionId(cal, now, existing) == None
       <==> exists text :: text in existing && SequenceAt(cal, now, text) == Some(MAX_SEQUENCE)
    ensures NextSessionId(cal, now, existing).Some? ==>
            ComesNext(cal, now, existing, NextSessionId(cal, now, existing).value)
  {
    var last := LastSequence(cal, now, existing);
    if last.None? || last.value < MAX_SEQUENCE {
      ParseFormat(cal, Id(now, if last.None? then 1 else last.value + 1));
    }
  }

  /** Whether at least `days` days have passed since the time of the id. */
  function IsExpired(cal: Calendar, text: string, days: nat, now: nat): Option<bool> {
    match Parse(cal, text)
    case None => None
    case Some(id) => Some(now as int - id.time as int >= days * DAY)
  }

  /** The next id has number 1 if there is no id of that second, and else one more than the largest. */
  lemma NextIsSuccessor(cal: Calendar, now: nat, existing: seq<string>)
    requires Sound(cal) && now < TIMES && NextSessionId(cal, now, existing).Some?
    ensures var number := SequenceAt(cal, now, NextSessionId(cal, now, existing).value);
            if exists text :: text in existing && SequenceAt(cal, now, text).Some?
            then exists text :: text in existing && SequenceAt(cal, now, text).Some?
                                && number == Some(SequenceAt(cal, now, text).value + 1)
            else number == Some(1)
  {
    var last := LastSequence(cal, now, existing);
    var n := if last.None? then 1 else last.value + 1;
    ParseFormat(cal, Id(now, n));
    hide Parse, Format, LastSequence;
    assert SequenceAt(cal, now, NextSessionId(cal, now, existing).value) == Some(n);
    hide SequenceAt;
    if last.Some? {
      var text :| text in existing && SequenceAt(cal, now, text) == last;
    }
  }

  /** A name is expired exactly if it is an id and the days, of 86400 seconds each, have passed since the
      second it names; it is undecided exactly if it is no id. */
  lemma ExpiredExactly(cal: Calendar, text: string, days: nat, now: nat)
    ensures IsExpired(cal, text, days, now) == Some(true)
       <==> Parse(cal, text).Some? && now >= Parse(cal, text).value.time + days * 86400
    ensures IsExpired(cal, text, days, now) == None <==> Parse(cal, text) == None
  {
    hide Parse;
  }

  /** An id that was written expires that many days after its second, whatever its number. */
  lemma WrittenIdExpires(cal: Calendar, id: Id, days: nat, now: nat)
    requires Sound(cal) && id.time < TIMES && 1 <= id.sequence <= MAX_SEQUENCE
    ensures IsExpired(cal, Format(cal, id), days, now) == Some(now >= id.time + days * 86400)
  {
    ParseFormat(cal, id);
    hide Parse, Format;
  }

  // ----- The reserve loop -----

  datatype Mkdir = Made | AlreadyExists | MkdirFailed

  datatype Reserved = ReservedId(id: string) | SequenceExhausted | StoreFailure

  /** Each id tried was there already, and each has a larger number than the one before it. */
  ghost predicate TriedInOrder(cal: Calendar, listed: seq<string>, reservedAt: nat, mkdir: (nat, string) -> Mkdir,
                               tried: seq<string>) {
    && (forall k: nat :: k < |tried| ==> mkdir(k, tried[k]) == AlreadyExists && tried[k] !in listed)
    && (forall k :: 0 <= k < |tried| ==> SequenceAt(cal, reservedAt, tried[k]).Some?)
    && (forall j, k :: 0 <= j < k < |tried| ==>
          SequenceAt(cal, reservedAt, tried[j]).value < SequenceAt(cal, reservedAt, tried[k]).value)
  }

  /** How reserving may end: with an id of this second that is neither listed nor tried, when all numbers
      are used, or at a mkdir that failed. */
  ghost predicate ReservedWell(cal: Calendar, listed: seq<string>, reservedAt: nat, mkdir: (nat, string) -> Mkdir,
                               tried: seq<string>, result: Reserved) {
    match result
    case ReservedId(id) =>
      && mkdir(|tried|, id) == Made
      && Parse(cal, id).Some? && Parse(cal, id).value.time == reservedAt
      && id !in listed && id !in tried
    case SequenceExhausted =>
      exists text :: text in listed + tried && SequenceAt(cal, reservedAt, text) == Some(MAX_SEQUENCE)
    case StoreFailure =>
      exists id :: NextSessionId(cal, reservedAt, listed + tried) == Some(id) && mkdir(|tried|, id) == MkdirFailed
  }

  /** `id` may be tried after `tried`: it is new, of the second, and rises above the last id tried. */
  ghost predicate TriesNext(cal: Calendar, listed: seq<string>, reservedAt: nat, mkdir: (nat, string) -> Mkdir,
                            tried: seq<string>, id: string)
    requires TriedInOrder(cal, listed, reservedAt, mkdir, tried)
  {
    && SequenceAt(cal, reservedAt, id).Some?
    && id !in listed && id !in tried
    && Parse(cal, id).Some? && Parse(cal, id).value.time == reservedAt
    && (tried != [] ==> SequenceAt(cal, reservedAt, tried[|tried| - 1]).value < SequenceAt(cal, reservedAt, id).value)
    && (mkdir(|tried|, id) == AlreadyExists ==> TriedInOrder(cal, listed, reservedAt, mkdir, tried + [id]))
  }

  lemma TryNext(cal: Calendar, listed: seq<string>, reservedAt: nat, mkdir: (nat, string) -> Mkdir, tried: seq<string>)
    requires Sound(cal) && reservedAt < TIMES
    requires TriedInOrder(cal, listed, reservedAt, mkdir, tried)
    requires NextSessionId(cal, reservedAt, listed + tried).Some?
    ensures TriesNext(cal, listed, reservedAt, mkdir, tried, NextSessionId(cal, reservedAt, listed + tried).value)
  {
    hide NextSessionId, SequenceAt, Parse, Sound, LastSequence;
    var existing := listed + tried;
    NextIsNew(cal, reservedAt, existing);
    var id := NextSessionId(cal, reservedAt, existing).value;
    assert forall text :: text in tried ==> text in existing;
    OneMoreTried(cal, listed, reservedAt, mkdir, tried, id);
  }

  lemma OneMoreTried(cal: Calendar, listed: seq<string>, reservedAt: nat, mkdir: (nat, string) -> Mkdir,
                     tried: seq<string>, id: string)
    requires TriedInOrder(cal, listed, reservedAt, mkdir, tried)
    requires SequenceAt(cal, reservedAt, id).Some? && id !in listed
    requires forall text :: text in tried && SequenceAt(cal, reservedAt, text).Some? ==>
               SequenceAt(cal, reservedAt, text).value < SequenceAt(cal, reservedAt, id).value
    ensures tried != [] ==>
            SequenceAt(cal, reservedAt, tried[|tried| - 1]).value < SequenceAt(cal, reservedAt, id).value
    ensures mkdir(|tried|, id) == AlreadyExists ==> TriedInOrder(cal, listed, reservedAt, mkdir, tried + [id])
  {
    hide SequenceAt;
    assert forall k :: 0 <= k < |tried| ==> tried[k] in tried;
  }

  /** Tries ids until a mkdir succeeds. `mkdir` answers each attempt; other runs may create and remove
      reservations between the attempts. `tried` lists the ids that were already there. */
  method ReserveSession(cal: Calendar, listed: seq<string>, reservedAt: nat, mkdir: (nat, string) -> Mkdir)
      returns (result: Reserved, tried: seq<string>)
    requires Sound(cal) && reservedAt < TIMES
    ensures TriedInOrder(cal, listed, reservedAt, mkdir, tried)
    ensures ReservedWell(cal, listed, reservedAt, mkdir, tried, result)
  {
    var existing := listed;
    tried := [];
    ghost var left := MAX_SEQUENCE + 1;
    hide NextSessionId, SequenceAt, Parse, Sound;
    while true
      invariant existing == listed + tried
      invariant TriedInOrder(cal, listed, reservedAt, mkdir, tried)
      invariant left == if tried == [] then MAX_SEQUENCE + 1
                        else MAX_SEQUENCE - SequenceAt(cal, reservedAt, tried[|tried| - 1]).value
      decreases left
    {
      var next := NextSessionId(cal, reservedAt, existing);
      if next.None? {
        NextIsNew(cal, reservedAt, existing);
        return SequenceExhausted, tried;
      }
      var id := next.value;
      TryNext(cal, listed, reservedAt, mkdir, tried);
      match mkdir(|tried|, id) {
        case Made =>
          return ReservedId(id), tried;
        case AlreadyExists =>
          existing := existing + [id];
          left := MAX_SEQUENCE - SequenceAt(cal, reservedAt, id).value;
          tried := tried + [id];
        case MkdirFailed =>
          return StoreFailure, tried;
      }
    }
  }
}
