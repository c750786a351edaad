/** struct http_parser as an object, with http_parser_init and http_parser_execute. */
module HttpParser {
  import opened Bytes
  import opened Types
  import opened Table
  import opened Runs
  import opened Scans
  import opened Invariants
  import opened Execute

  class HttpParser {
    var state: State
    var matcher: Matcher      // header_state, index
    var framing: Framing      // flags, uses_transfer_encoding, content_length
    var line: Line            // type, http_major, http_minor, status_code, method
    var nread: nat
    var upgrade: bool
    var errno: Option<Errno>  // None is HPE_OK
    const config: Config
    var log: seq<Event>       // the callbacks made so far

    function Snapshot(): Parser
      reads this
    {
      Parser(state, matcher, framing, line, nread, upgrade, config)
    }

    /** The callbacks made so far, with the pieces of one span joined. */
    function Trace(): Trace
      reads this
    {
      Joined(log)
    }

    ghost predicate Valid()
      reads this
    {
      errno.None? ==> Good(Snapshot())
    }

    /** http_parser_init */
    constructor (kind: Kind, config: Config)
      ensures Valid() && errno.None? && Snapshot() == Init(kind, config) && log == [] && Trace() == []
      ensures this.config == config
    {
      var s := Init(kind, config);
      state, matcher, framing, line, nread, upgrade := s.state, s.matcher, s.framing, s.line, s.nread, s.upgrade;
      this.config, errno, log := config, None, [];
      InitGood(kind, config);
    }

    /** http_parser_execute. On a non-empty buffer: when the byte-wise run is free of errors the
        call leaves the same struct and the same joined trace and consumes the same bytes;
        when it is not, the call fails too, with the same errno at the same byte unless
        the byte-wise run exceeds the header size; then it fails as Overran says. */
    method Execute(data: Text) returns (n: nat)
      requires Valid() && config.maxHeaderSize + |data| < 0x1_0000_0000
      modifies this
      ensures Valid()
      ensures old(errno).Some? ==> n == 0 && errno == old(errno) && log == old(log) && Snapshot() == old(Snapshot())
      ensures old(errno).None? && data == [] ==>
                && (Trace(), errno) == EndOfInput(old(Snapshot()), old(Trace()))
                && Snapshot() == old(Snapshot()) && n == (if errno.None? then 0 else 1)
                && (!state.BodyIdentityEof? ==> log == old(log))
      ensures old(errno).None? && data != [] ==>
                var r := Run(old(Snapshot()), old(Trace()), data);
                && !r.why.Crash?
                && (errno.Some? <==> r.why.Fail?)
                && (errno.None? ==> Snapshot() == r.s && Trace() == r.t && n == |data| - |r.rest|)
                && (errno.Some? ==>
                      Fails(Fated(old(Snapshot()), old(Trace()), data, NOT_BEGUN), data, log, n, Fail(errno.value)))
                && n <= |data| && (errno.None? && !upgrade ==> n == |data|) && (errno.Some? ==> n < |data|)
                && Apart(log, |old(log)|)
    {
      hide Runs.Run, Good, Runs.Joined, Apart, Fails, Caught;
      if errno.Some? {
        return 0;
      }
      if data == [] {
        match state
        case BodyIdentityEof => JoinedSnoc(log, Note(MessageComplete)); log := log + [Note(MessageComplete)]; return 0;
        case Idle(_) => return 0;
        case _ => errno := Some(INVALID_EOF_STATE); return 1;
      }
      RunKeeps(Snapshot(), Trace(), data);
      var s, l, why;
      s, l, n, why := Parse(Snapshot(), log, data);
      log := l;
      state, matcher, framing, line, nread, upgrade := s.state, s.matcher, s.framing, s.line, s.nread, s.upgrade;
      if why.Fail? { errno := Some(why.errno); }
    }

    /** The calls on `bufs` fail in the first buffer in which the byte-wise run does not go through. */
    static ghost predicate FailsAmong(s: Parser, t: Runs.Trace, bufs: seq<Text>, log: seq<Event>, e: Errno)
      decreases |bufs|
    {
      bufs != [] &&
      var r := Run(s, t, bufs[0]);
      if r.why.Advance? then FailsAmong(r.s, r.t, bufs[1..], log, e)
      else exists n :: Fails(Fated(s, t, bufs[0], NOT_BEGUN), bufs[0], log, n, Fail(e))
    }

    /** One call per buffer: however the input is cut, the outcome is that of the whole input; calls after a
        failure do nothing. When the run ends for an upgrade the caller has to stop there, and nothing is said. */
    method ExecuteAll(bufs: seq<Text>)
      requires Valid() && errno.None?
      requires forall i :: 0 <= i < |bufs| ==> bufs[i] != [] && config.maxHeaderSize + |bufs[i]| < 0x1_0000_0000
      modifies this
      ensures Valid()
      ensures var r := Run(old(Snapshot()), old(Trace()), Flatten(bufs));
              && (r.why.Advance? ==> errno.None? && Snapshot() == r.s && Trace() == r.t)
              && (r.why.Fail? ==> errno.Some? && FailsAmong(old(Snapshot()), old(Trace()), bufs, log, errno.value))
              && (r.why.Fail? && r.why != Fail(HEADER_OVERFLOW) ==> r.why == Fail(errno.value) && IsBehind(Trace(), r.t))
    {
      hide Runs.Run, Good, Runs.Joined, IsBehind, Overran, Caught;
      ghost var s0, t0 := Snapshot(), Trace();
      ghost var r := Run(s0, t0, Flatten(bufs));
      assert bufs[0..] == bufs;
      for i := 0 to |bufs|
        invariant Valid()
        invariant r.why.Advance? ==> errno.None?
        invariant errno.None? && !r.why.Exit? ==> r == Run(Snapshot(), Trace(), Flatten(bufs[i..]))
        invariant errno.None? && r.why.Fail? ==>
                    forall l, e :: FailsAmong(Snapshot(), Trace(), bufs[i..], l, e) ==> FailsAmong(s0, t0, bufs, l, e)
        invariant errno.Some? && r.why.Fail? ==> FailsAmong(s0, t0, bufs, log, errno.value)
        invariant errno.Some? && r.why.Fail? && r.why != Fail(HEADER_OVERFLOW) ==> r.why == Fail(errno.value) && IsBehind(Trace(), r.t)
      {
        assert bufs[i..][1..] == bufs[i + 1..];
        RunSplit(Snapshot(), Trace(), bufs[i], Flatten(bufs[i + 1..]));
        var _ := Execute(bufs[i]);
      }
      assert bufs[|bufs|..] == [];
      RunNothing(Snapshot(), Trace());
    }
  }
}
