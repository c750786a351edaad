/** The bulk scans over header names and values, and where they stop once the header size is exceeded.
    A scan counts its bytes only when it ends, so it can pass the byte at which one-byte steps exceed the size. */
module Scans {
  import opened Bytes
  import opened Types
  import opened Table
  import opened Runs

  /** The states whose bytes are read in bulk and counted afterwards. */
  predicate IsScanned(st: State) {
    st == InName(HeaderField) || st == InValue(HeaderValue)
  }

  /** How far a scan has come in one call: the bytes it took, and its place in the lap of the tight loop over a value
      that nobody looks into. */
  datatype Progress = Progress(taken: nat, lap: nat)

  const NOT_BEGUN := Progress(0, 0)

  /** A lap reads `max_header_size` bytes and passes the next one unread. */
  function NextLap(c: Config, h: HeaderState, lap: nat): nat {
    if !h.General? then lap else if lap >= c.maxHeaderSize then 0 else lap + 1
  }

  /** The progress after a byte that led from `s` to `s'`. */
  function Scanned(d: Progress, s: Parser, s': Parser): Progress {
    if IsScanned(s.state) && s'.state == s.state
    then Progress(d.taken + 1, NextLap(s.config, s.matcher.header, d.lap))
    else NOT_BEGUN
  }

  /** How far the scan has come that holds the byte at which the byte-wise run exceeds the header size. */
  function Caught(s: Parser, t: Trace, data: Text, d: Progress): Progress
    decreases |data|, 1
  {
    if data == [] then NOT_BEGUN
    else if Overflows(s) then d
    else CaughtOn(Counted(s), Byte(Counted(s), t, data[0]), data, d)
  }

  /** The same after the visits for `data[0]`. */
  function CaughtOn(s: Parser, p: Point, data: Text, d: Progress): Progress
    requires data != []
    decreases |data|, 0
  {
    if p.next.Advance? then Caught(p.s, p.t, data[1..], Scanned(d, s, p.s)) else NOT_BEGUN
  }

  /** How a run ends, and the scan it ends in if it exceeds the header size. */
  datatype Fate = Fate(stop: Stop, scan: Progress)

  function Fated(s: Parser, t: Trace, data: Text, d: Progress): Fate {
    Fate(Run(s, t, data), Caught(s, t, data, d))
  }

  function FatedOn(s: Parser, p: Point, data: Text, d: Progress): Fate
    requires data != [] && !p.next.Again? && (p.next.Exit? ==> p.s.upgrade)
  {
    Fate(Resume(p, data), CaughtOn(s, p, data, d))
  }

  /** Where a call stops whose scan has passed the limit: the place, the error, and whether the value was reported. */
  datatype Halt = Halt(at: nat, errno: Errno, reported: bool)

  /** The byte after a name that goes on at `p`, or the last byte of the buffer. */
  function NameEnd(data: Text, p: nat): (r: nat)
    requires p <= |data| && data != []
    ensures r < |data| && (p < |data| ==> p <= r)
    decreases |data| - p
  {
    if p == |data| then |data| - 1 else if Token(data[p]) == NUL then p else NameEnd(data, p + 1)
  }

  /** The scan goes on from `p` to the end of the name, to CR, LF or a refused byte of the value, or to the end of the
      buffer. A value is reported before its CR is counted and after its LF is. */
  function HaltFrom(st: State, c: Config, m: Matcher, f: Framing, data: Text, p: nat, lap: nat): (r: Halt)
    requires p <= |data| && data != []
    ensures r.at < |data| && (p < |data| ==> p <= r.at)
    decreases |data| - p
  {
    if st.InName? then Halt(NameEnd(data, p), HEADER_OVERFLOW, false)
    else if p == |data| then Halt(|data| - 1, HEADER_OVERFLOW, false)
    else if m.header.General? && lap == c.maxHeaderSize then HaltFrom(st, c, m, f, data, p + 1, 0)
    else if data[p] == CR then Halt(p, HEADER_OVERFLOW, true)
    else if data[p] == LF then Halt(p, HEADER_OVERFLOW, false)
    else if !c.lenient && !IsHeaderChar(data[p]) then Halt(p, INVALID_HEADER_TOKEN, false)
    else match ValueByte(m, f, data[p])
      case Head(m', f') => HaltFrom(st, c, m', f', data, p + 1, NextLap(c, m.header, lap))
      case Refused(e) => Halt(p, e, false)
      case Asserted => HaltFrom(st, c, m, f, data, p + 1, lap)
  }

  function HaltOf(s: Parser, data: Text, p: nat, lap: nat): (r: Halt)
    requires p <= |data| && data != []
    ensures r.at < |data| && (p < |data| ==> p <= r.at)
  {
    HaltFrom(s.state, s.config, s.matcher, s.framing, data, p, lap)
  }
}
