/**
 Whole guest runs against recorded or replayed evidence: a replay of a saved run
 gives the guest the same answers, and no replay hands out anything but a prefix of
 each recorded stream.
 */
module EvidenceRuns {
  import opened Words
  import opened JsonText
  import opened Evidence

  datatype CapMode = Deny | Allow | Recorded
  datatype Caps = Caps(clocks: CapMode, random: CapMode)

  datatype Ask = AskWall | AskMono | AskFill(kind: Kind, n: nat) | AskU32(kind: Kind) | AskU64(kind: Kind)
  datatype Answer = Number(n: nat) | Filled(bytes: Bytes)

  /** A deterministic guest: its next question, if any, from the seed and the answers so far. */
  type Guest = (nat, seq<Answer>) -> Option<Ask>

  /** What the host's own clocks, generators and seed would give at each question. */
  datatype Env = Env(nanos: nat -> nat, mono: nat -> nat, rng: (nat, nat) -> byte, seed: u128)

  function Drawn(env: Env, step: nat, n: nat): (bs: Bytes)
    ensures |bs| == n
  {
    seq<byte>(n, k requires 0 <= k < n => env.rng(step, k))
  }

  /** Random bytes for one call, under the random capability. */
  function ServeBytes(caps: Caps, env: Env, step: nat, e: Evidence, kind: Kind, n: nat): (r: (Bytes, Evidence))
    ensures |r.0| == n
  {
    match caps.random
    case Deny => (Zeros(n), e)
    case Allow => (Drawn(env, step, n), e)
    case Recorded => FillBytes(e, kind, Drawn(env, step, n))
  }

  function Serve(caps: Caps, env: Env, step: nat, e: Evidence, ask: Ask): (Answer, Evidence) {
    match ask
    case AskWall => (
      match caps.clocks
      case Deny => (Number(0), e)
      case Allow => (Number(env.nanos(step)), e)
      case Recorded => var r := WallNow(e, env.nanos(step)); (Number(r.0), r.1))
    case AskMono => (
      match caps.clocks
      case Deny => (Number(0), e)
      case Allow => (Number(env.mono(step)), e)
      case Recorded => var r := MonoNow(e, env.mono(step)); (Number(r.0), r.1))
    case AskFill(kind, n) => var r := ServeBytes(caps, env, step, e, kind, n); (Filled(r.0), r.1)
    case AskU32(kind) => var r := ServeBytes(caps, env, step, e, kind, 4); (Number(FromLe(r.0)), r.1)
    case AskU64(kind) => var r := ServeBytes(caps, env, step, e, kind, 8); (Number(FromLe(r.0)), r.1)
  }

  /** The insecure seed the guest gets, and the evidence after handing it out. */
  function Seeded(caps: Caps, env: Env, e: Evidence): (u128, Evidence) {
    match caps.random
    case Deny => (0, e)
    case Allow => (env.seed, e)
    case Recorded => if e.mode.Record? then (env.seed, e.(seed := env.seed)) else (e.seed, e)
  }

  // ---------- what a guest is told ----------

  /** The greatest 64-bit reading that does not pass the host's. */
  ghost predicate IsReading(t: nat, nanos: nat) {
    t <= nanos && t <= 0xFFFF_FFFF_FFFF_FFFF && (t == nanos || t == 0xFFFF_FFFF_FFFF_FFFF)
  }

  /** A clock shows zero when denied, the host's time when allowed, and while recording the host's time, which is kept. */
  lemma ClockAnswers(caps: Caps, env: Env, step: nat, e: Evidence)
    ensures
      var (wall, e1) := Serve(caps, env, step, e, AskWall);
      && (caps.clocks.Deny? ==> wall == Number(0) && e1 == e)
      && (caps.clocks.Allow? ==> wall == Number(env.nanos(step)) && e1 == e)
      && (caps.clocks.Recorded? && e.mode.Record? ==>
            wall.Number? && IsReading(wall.n, env.nanos(step))
            && e1 == e.(wall := Stream(e.wall.items + [wall.n], e.wall.next)))
    ensures
      var (mono, e2) := Serve(caps, env, step, e, AskMono);
      && (caps.clocks.Deny? ==> mono == Number(0) && e2 == e)
      && (caps.clocks.Allow? ==> mono == Number(env.mono(step)) && e2 == e)
      && (caps.clocks.Recorded? && e.mode.Record? ==>
            mono.Number? && IsReading(mono.n, env.mono(step))
            && e2 == e.(mono := Stream(e.mono.items + [mono.n], e.mono.next)))
  {
  }

  /** Random bytes are zero when denied and the host's when allowed; while recording they are the host's and are kept. */
  lemma RandomAnswers(caps: Caps, env: Env, step: nat, e: Evidence, kind: Kind, n: nat)
    ensures
      var (answer, after) := Serve(caps, env, step, e, AskFill(kind, n));
      && answer.Filled? && |answer.bytes| == n
      && (caps.random.Deny? ==> after == e && forall k :: 0 <= k < n ==> answer.bytes[k] == 0)
      && (caps.random.Allow? ==> after == e && forall k :: 0 <= k < n ==> answer.bytes[k] == env.rng(step, k))
      && (caps.random.Recorded? && e.mode.Record? ==>
            && (forall k :: 0 <= k < n ==> answer.bytes[k] == env.rng(step, k))
            && (kind.Secure? ==> after == e.(secure := Stream(e.secure.items + answer.bytes, e.secure.next)))
            && (kind.Insecure? ==> after == e.(insecure := Stream(e.insecure.items + answer.bytes, e.insecure.next))))
  {
  }

  /** A word is the little-endian number of the bytes a fill of its size would give. */
  lemma WordAnswers(caps: Caps, env: Env, step: nat, e: Evidence, kind: Kind)
    ensures
      var (four, eight) := (Serve(caps, env, step, e, AskFill(kind, 4)), Serve(caps, env, step, e, AskFill(kind, 8)));
      && Serve(caps, env, step, e, AskU32(kind)) == (Number(Four(four.0.bytes, 0)), four.1)
      && Serve(caps, env, step, e, AskU64(kind))
         == (Number(Four(eight.0.bytes, 0) + 0x1_0000_0000 * Four(eight.0.bytes, 4)), eight.1)
  {
    hide ServeBytes, FromLe, Four;
    WordsOfBytes(ServeBytes(caps, env, step, e, kind, 4).0);
    WordsOfBytes(ServeBytes(caps, env, step, e, kind, 8).0);
  }

  /** The seed is zero when denied, the host's when allowed or recording, and the recorded one in a replay. */
  lemma SeedAnswers(caps: Caps, env: Env, e: Evidence)
    ensures
      var (seed, after) := Seeded(caps, env, e);
      && (caps.random.Deny? ==> seed == 0) && (caps.random.Allow? ==> seed == env.seed)
      && (caps.random.Recorded? ==> seed == after.seed == if e.mode.Record? then env.seed else e.seed)
      && after == e.(seed := after.seed) && (!caps.random.Recorded? ==> after == e)
  {
  }

  /** The first n questions of a guest. */
  function Run(guest: Guest, caps: Caps, env: Env, seed: nat, e: Evidence, n: nat): (seq<Answer>, Evidence) {
    if n == 0 then ([], e)
    else
      var before := Run(guest, caps, env, seed, e, n - 1);
      var ask := guest(seed, before.0);
      if ask.None? then before
      else
        var r := Serve(caps, env, |before.0|, before.1, ask.value);
        (before.0 + [r.0], r.1)
  }

  datatype Session = Session(seed: nat, answers: seq<Answer>, evidence: Evidence)

  function Played(guest: Guest, caps: Caps, env: Env, e: Evidence, n: nat): Session {
    var s := Seeded(caps, env, e);
    var r := Run(guest, caps, env, s.0, s.1, n);
    Session(s.0, r.0, r.1)
  }

  // ---------- record, save, replay ----------

  ghost predicate Within(part: Evidence, full: Evidence) {
    && part.wall.items <= full.wall.items && part.mono.items <= full.mono.items
    && part.secure.items <= full.secure.items && part.insecure.items <= full.insecure.items
    && part.seed == full.seed && part.secrets == full.secrets
  }

  /** The replay of `full` that has handed out what `part` had recorded. */
  ghost function At(full: Evidence, part: Evidence): Evidence {
    Evidence(Replay, Stream(full.wall.items, |part.wall.items|), Stream(full.mono.items, |part.mono.items|),
             Stream(full.secure.items, |part.secure.items|), Stream(full.insecure.items, |part.insecure.items|),
             full.seed, full.secrets, [])
  }

  ghost predicate NothingUnrecorded(caps: Caps) { !caps.clocks.Allow? && !caps.random.Allow? }

  lemma RecordingGrows(caps: Caps, env: Env, step: nat, e: Evidence, ask: Ask)
    requires e.mode.Record?
    ensures Serve(caps, env, step, e, ask).1.mode.Record? && Within(e, Serve(caps, env, step, e, ask).1)
  {
  }

  lemma {:induction false} RunGrows(guest: Guest, caps: Caps, env: Env, seed: nat, e: Evidence, m: nat, n: nat)
    requires e.mode.Record? && m <= n
    ensures Run(guest, caps, env, seed, e, n).1.mode.Record?
    ensures Within(Run(guest, caps, env, seed, e, m).1, Run(guest, caps, env, seed, e, n).1)
    decreases n
  {
    hide Serve;
    if n > 0 {
      var before := Run(guest, caps, env, seed, e, n - 1);
      RunGrows(guest, caps, env, seed, e, if m < n then m else n - 1, n - 1);
      var ask := guest(seed, before.0);
      if ask.Some? { RecordingGrows(caps, env, |before.0|, before.1, ask.value); }
    }
  }

  lemma SliceOfPrefix<T>(done: seq<T>, more: seq<T>, full: seq<T>)
    requires done + more <= full
    ensures |done| + |more| <= |full| && full[|done|..|done| + |more|] == more
  {
    assert (done + more)[|done|..] == more;
    assert full[..|done| + |more|] == done + more;
  }

  /** One question of the replay answers as the recording did. */
  lemma ReplayStep(caps: Caps, env: Env, env2: Env, step: nat, part: Evidence, full: Evidence, ask: Ask)
    requires NothingUnrecorded(caps) && part.mode.Record?
    requires Within(Serve(caps, env, step, part, ask).1, full)
    ensures
      var r := Serve(caps, env, step, part, ask);
      Serve(caps, env2, step, At(full, part), ask) == (r.0, At(full, r.1))
  {
    match ask
    case AskWall =>
      if caps.clocks.Recorded? { SliceOfPrefix(part.wall.items, [Clamped(env.nanos(step))], full.wall.items); }
    case AskMono =>
      if caps.clocks.Recorded? { SliceOfPrefix(part.mono.items, [Clamped(env.mono(step))], full.mono.items); }
    case AskFill(kind, n) => ReplayFill(caps, env, env2, step, part, full, kind, n);
    case AskU32(kind) => ReplayFill(caps, env, env2, step, part, full, kind, 4);
    case AskU64(kind) => ReplayFill(caps, env, env2, step, part, full, kind, 8);
  }

  lemma ReplayFill(caps: Caps, env: Env, env2: Env, step: nat, part: Evidence, full: Evidence, kind: Kind, n: nat)
    requires !caps.random.Allow? && part.mode.Record?
    requires Within(ServeBytes(caps, env, step, part, kind, n).1, full)
    ensures
      var r := ServeBytes(caps, env, step, part, kind, n);
      ServeBytes(caps, env2, step, At(full, part), kind, n) == (r.0, At(full, r.1))
  {
    if caps.random.Recorded? {
      SliceOfPrefix(Random(part, kind).items, Drawn(env, step, n), Random(full, kind).items);
    }
  }

  lemma {:induction false} ReplayFollows(guest: Guest, caps: Caps, env: Env, env2: Env, seed: nat, e: Evidence,
                                         full: Evidence, n: nat)
    requires NothingUnrecorded(caps) && e.mode.Record?
    requires Within(Run(guest, caps, env, seed, e, n).1, full)
    ensures
      var r := Run(guest, caps, env, seed, e, n);
      Run(guest, caps, env2, seed, At(full, e), n) == (r.0, At(full, r.1))
    decreases n
  {
    hide Serve;
    if n > 0 {
      var before := Run(guest, caps, env, seed, e, n - 1);
      RunGrows(guest, caps, env, seed, e, n - 1, n);
      RunGrows(guest, caps, env, seed, e, n - 1, n - 1);
      ReplayFollows(guest, caps, env, env2, seed, e, full, n - 1);
      var ask := guest(seed, before.0);
      if ask.Some? { ReplayStep(caps, env, env2, |before.0|, before.1, full, ask.value); }
    }
  }

  /**
   For every deterministic guest, whatever the host's clocks and generators do the second
   time: the saved document opens, and the replay gives the same seed and the same answers,
   uses up every recorded item and reports no error.
   */
  lemma RecordThenReplay(guest: Guest, caps: Caps, env: Env, env2: Env, n: nat)
    requires NothingUnrecorded(caps)
    ensures
      var recorded := Played(guest, caps, env, NewRecord(), n);
      var start := NewReplay(BuildDoc(recorded.evidence));
      && start.Ready?
      && var replayed := Played(guest, caps, env2, start.value, n);
      && replayed.seed == recorded.seed && replayed.answers == recorded.answers
      && replayed.evidence.errors == []
      && replayed.evidence == At(recorded.evidence, recorded.evidence)
  {
    hide Run, Serve, BuildDoc, NewReplay;
    var s := Seeded(caps, env, NewRecord());
    var full := Run(guest, caps, env, s.0, s.1, n).1;
    SavedDocumentOpens(full);
    RunStarts(guest, caps, env, s.0, s.1, n);
    assert At(full, s.1) == Rewound(full);
    ReplayFollows(guest, caps, env, env2, s.0, s.1, full, n);
  }

  lemma RunStarts(guest: Guest, caps: Caps, env: Env, seed: nat, e: Evidence, n: nat)
    requires e.mode.Record?
    ensures Within(e, Run(guest, caps, env, seed, e, n).1)
  {
    RunGrows(guest, caps, env, seed, e, 0, n);
  }

  // ---------- an unrecorded capability is not replayed ----------

  /** With a capability on "allow", some guest and two hosts give a replay that differs. */
  lemma AllowIsNotReplayed(caps: Caps) returns (guest: Guest, env: Env, env2: Env)
    requires !NothingUnrecorded(caps)
    ensures
      var recorded := Played(guest, caps, env, NewRecord(), 1);
      var start := NewReplay(BuildDoc(recorded.evidence));
      start.Ready? && Played(guest, caps, env2, start.value, 1).answers != recorded.answers
  {
    env := Env(_ => 1, _ => 1, (_, _) => 1, 0);
    env2 := Env(_ => 2, _ => 2, (_, _) => 2, 0);
    var ask := if caps.clocks.Allow? then AskWall else AskFill(Secure, 1);
    guest := (_, _) => Some(ask);
    var recorded := Played(guest, caps, env, NewRecord(), 1);
    SavedDocumentOpens(recorded.evidence);
    OneAnswer(guest, ask, caps, env, NewRecord());
    OneAnswer(guest, ask, caps, env2, Rewound(recorded.evidence));
    hide Played, BuildDoc, NewReplay;
    if !caps.clocks.Allow? {
      assert Drawn(env, 0, 1)[0] == 1 && Drawn(env2, 0, 1)[0] == 2;
    }
  }

  lemma OneAnswer(guest: Guest, ask: Ask, caps: Caps, env: Env, e: Evidence)
    requires forall seed, h :: guest(seed, h) == Some(ask)
    ensures Played(guest, caps, env, e, 1).answers == [Serve(caps, env, 0, Seeded(caps, env, e).1, ask).0]
  {
    hide Serve;
    var s := Seeded(caps, env, e);
    assert Run(guest, caps, env, s.0, s.1, 0) == ([], s.1);
  }

  // ---------- every replay hands out prefixes ----------

  datatype Source = Wall | Mono | Rng(kind: Kind)

  function SourceOf(ask: Ask): Source {
    match ask
    case AskWall => Wall
    case AskMono => Mono
    case AskFill(kind, _) => Rng(kind)
    case AskU32(kind) => Rng(kind)
    case AskU64(kind) => Rng(kind)
  }

  function Size(ask: Ask): nat {
    match ask
    case AskWall => 1
    case AskMono => 1
    case AskFill(_, n) => n
    case AskU32(_) => 4
    case AskU64(_) => 8
  }

  function Items(e: Evidence, w: Source): seq<int> {
    match w
    case Wall => e.wall.items
    case Mono => e.mono.items
    case Rng(kind) => Random(e, kind).items
  }

  function Next(e: Evidence, w: Source): nat {
    match w
    case Wall => e.wall.next
    case Mono => e.mono.next
    case Rng(kind) => Random(e, kind).next
  }

  /** The stream items one answer carries. */
  function Carried(ask: Ask, answer: Answer): seq<int> {
    match ask
    case AskFill(_, _) => if answer.Filled? then answer.bytes else []
    case AskU32(_) => if answer.Number? then ToLe(4, answer.n) else []
    case AskU64(_) => if answer.Number? then ToLe(8, answer.n) else []
    case _ => if answer.Number? then [answer.n] else []
  }

  function ServeAll(caps: Caps, env: Env, e: Evidence, asks: seq<Ask>): (r: (seq<Answer>, Evidence))
    ensures |r.0| == |asks|
  {
    if asks == [] then ([], e)
    else
      var n := |asks| - 1;
      var before := ServeAll(caps, env, e, asks[..n]);
      var r := Serve(caps, env, n, before.1, asks[n]);
      (before.0 + [r.0], r.1)
  }

  /** How many items of one source the questions ask for. */
  function Demand(asks: seq<Ask>, w: Source): nat {
    if asks == [] then 0
    else
      var n := |asks| - 1;
      Demand(asks[..n], w) + if SourceOf(asks[n]) == w then Size(asks[n]) else 0
  }

  /** What the answers carry of one source, in order. */
  function Delivered(asks: seq<Ask>, answers: seq<Answer>, w: Source): seq<int>
    requires |asks| == |answers|
  {
    if asks == [] then []
    else
      var n := |asks| - 1;
      Delivered(asks[..n], answers[..n], w) + if SourceOf(asks[n]) == w then Carried(asks[n], answers[n]) else []
  }

  const RECORDED := Caps(Recorded, Recorded)

  function Missing(w: Source): string {
    match w
    case Wall => "missing wall clock evidence"
    case Mono => "missing monotonic clock evidence"
    case Rng(kind) => if kind.Secure? then "missing secure random evidence" else "missing insecure random evidence"
  }

  /** e with one source's cursor moved on. */
  function Moved(e: Evidence, w: Source, k: nat): Evidence {
    match w
    case Wall => e.(wall := Advanced(e.wall, k))
    case Mono => e.(mono := Advanced(e.mono, k))
    case Rng(kind) => WithRandom(e, kind, Advanced(Random(e, kind), k))
  }

  lemma MovedOnly(e: Evidence, w: Source, k: nat, v: Source)
    ensures Items(Moved(e, w, k), v) == Items(e, v)
    ensures Next(Moved(e, w, k), v) == Next(e, v) + if v == w then k else 0
    ensures Moved(e, w, k).mode == e.mode && Moved(e, w, k).errors == e.errors
  {
  }

  predicate Fits(e: Evidence, w: Source, k: nat) { Next(e, w) + k <= |Items(e, w)| }

  /** One question moves only its own source, by its size, or reports an error and moves nothing. */
  lemma OneQuestion(env: Env, step: nat, e: Evidence, ask: Ask)
    requires e.mode.Replay?
    ensures
      var (answer, after) := Serve(RECORDED, env, step, e, ask);
      var w := SourceOf(ask);
      if Fits(e, w, Size(ask)) then
        && after == Moved(e, w, Size(ask))
        && Carried(ask, answer) == Items(e, w)[Next(e, w)..Next(e, w) + Size(ask)]
      else
        && after == e.(errors := e.errors + [Missing(w)])
        && if ask.AskFill? then answer == Filled(seq(ask.n, _ => 0)) else answer == Number(0)
  {
    hide ServeBytes, WallNow, MonoNow, FromLe, ToLe, Advanced;
    match ask
    case AskWall => OneReading(env, step, e);
    case AskMono => OneReading(env, step, e);
    case AskFill(kind, n) => OneFill(env, step, e, kind, n);
    case AskU32(kind) => OneFill(env, step, e, kind, 4);
    case AskU64(kind) => OneFill(env, step, e, kind, 8);
  }

  lemma OneReading(env: Env, step: nat, e: Evidence)
    requires e.mode.Replay?
    ensures
      var (reading, after) := WallNow(e, env.nanos(step));
      if Fits(e, Wall, 1) then after == Moved(e, Wall, 1) && reading == e.wall.items[e.wall.next]
      else after == e.(errors := e.errors + [NO_WALL]) && reading == 0
    ensures
      var (reading, after) := MonoNow(e, env.mono(step));
      if Fits(e, Mono, 1) then after == Moved(e, Mono, 1) && reading == e.mono.items[e.mono.next]
      else after == e.(errors := e.errors + [NO_MONO]) && reading == 0
  {
  }

  lemma OneFill(env: Env, step: nat, e: Evidence, kind: Kind, n: nat)
    requires e.mode.Replay?
    ensures
      var (bytes, after) := ServeBytes(RECORDED, env, step, e, kind, n);
      && ToLe(n, FromLe(bytes)) == bytes
      && if CanTake(Random(e, kind), n) then
           after == Moved(e, Rng(kind), n) && bytes == Taken(Random(e, kind), n)
         else after == e.(errors := e.errors + [Underflow(kind)]) && bytes == Zeros(n) && FromLe(bytes) == 0
  {
    ZeroWord(n);
    LeRoundTrip(ServeBytes(RECORDED, env, step, e, kind, n).0);
  }

  lemma {:induction false} ZeroWord(n: nat)
    ensures FromLe(Zeros(n)) == 0
    decreases n
  {
    if n > 0 {
      assert Zeros(n)[1..] == Zeros(n - 1);
      ZeroWord(n - 1);
    }
  }

  ghost predicate Served(e: Evidence, asks: seq<Ask>, r: (seq<Answer>, Evidence), w: Source)
    requires |r.0| == |asks|
  {
    && Items(r.1, w) == Items(e, w)
    && Next(r.1, w) == Demand(asks, w) <= |Items(e, w)|
    && Delivered(asks, r.0, w) == Items(e, w)[..Demand(asks, w)]
  }

  lemma {:induction false} ReplayServes(env: Env, e: Evidence, asks: seq<Ask>)
    requires e.mode.Replay? && e.errors == [] && forall w :: Next(e, w) == 0
    ensures
      var r := ServeAll(RECORDED, env, e, asks);
      && r.1.mode.Replay?
      && (r.1.errors == [] <==> forall w :: Demand(asks, w) <= |Items(e, w)|)
      && (r.1.errors == [] ==> forall w :: Served(e, asks, r, w))
    decreases |asks|
  {
    hide Serve, Carried, SourceOf, Size, Moved, Items, Next;
    if asks != [] {
      var n := |asks| - 1;
      var ask := asks[n];
      var before := ServeAll(RECORDED, env, e, asks[..n]);
      ReplayServes(env, e, asks[..n]);
      OneQuestion(env, n, before.1, ask);
      var r := ServeAll(RECORDED, env, e, asks);
      MovedOnly(before.1, SourceOf(ask), Size(ask), SourceOf(ask));
      if before.1.errors != [] {
        var w :| Demand(asks[..n], w) > |Items(e, w)|;
        assert Demand(asks, w) > |Items(e, w)|;
      } else {
        var own := SourceOf(ask);
        assert Served(e, asks[..n], before, own);
        assert Demand(asks, own) == Next(before.1, own) + Size(ask);
        if Fits(before.1, own, Size(ask)) {
          forall w ensures Served(e, asks, r, w) {
            assert Served(e, asks[..n], before, w);
            MovedOnly(before.1, own, Size(ask), w);
            assert r.0[..n] == before.0;
          }
        }
      }
    }
  }

  /**
   In every replay of an opened document, whatever the chunking and interleaving: the replay
   reports no error exactly when no source is asked for more than it recorded, and then each
   source has handed out exactly the beginning of its recording.
   */
  lemma ReplayHandsOutPrefixes(env: Env, doc: Document, asks: seq<Ask>)
    requires NewReplay(doc).Ready?
    ensures
      var e := NewReplay(doc).value;
      var r := ServeAll(RECORDED, env, e, asks);
      && (r.1.errors == [] <==> forall w :: Demand(asks, w) <= |Items(e, w)|)
      && (r.1.errors == [] ==> forall w :: Served(e, asks, r, w))
  {
    ReplayServes(env, NewReplay(doc).value, asks);
  }

  // ---------- wiring the capabilities to their sources ----------

  datatype ClockSource = ZeroClock | HostClock | Evidenced(wall: EvidenceWallClock, mono: EvidenceMonotonicClock)
  datatype RandomSource = ZeroRandom | HostRandom | EvidencedRng(secure: EvidenceRng, insecure: EvidenceRng)
  datatype Wiring = Wiring(clocks: ClockSource, random: RandomSource, seed: Option<u128>)

  ghost predicate WiredTo(w: Wiring, caps: Caps, ctx: EvidenceCtx?) {
    && (w.clocks.Evidenced? <==> caps.clocks.Recorded?)
    && (w.random.EvidencedRng? <==> caps.random.Recorded?)
    && (w.clocks.ZeroClock? <==> caps.clocks.Deny?)
    && (w.random.ZeroRandom? <==> caps.random.Deny?)
    && (w.clocks.Evidenced? ==> w.clocks.wall.evidence == ctx && w.clocks.mono.evidence == ctx)
    && (w.random.EvidencedRng? ==>
          && w.random.secure.evidence == ctx && w.random.secure.kind == Secure
          && w.random.insecure.evidence == ctx && w.random.insecure.kind == Insecure
          && w.random.secure.seeded == w.random.insecure.seeded == ctx.mode.Record?)
  }

  /**
   The clock and random parts of building a WASI context; `drawn` is a fresh random seed.
   None when a recorded capability has no evidence. A seed of None is the host's own.
   */
  method WireCapabilities(caps: Caps, ctx: EvidenceCtx?, drawn: u128) returns (r: Option<Wiring>)
    modifies if ctx == null then {} else {ctx}
    ensures r.None? <==> ctx == null && (caps.clocks.Recorded? || caps.random.Recorded?)
    ensures r.Some? ==> WiredTo(r.value, caps, ctx) && (r.value.seed.None? <==> caps.random.Allow?)
    ensures r.Some? && caps.random.Deny? ==> r.value.seed == Some(0)
    ensures r.Some? && ctx != null ==>
      ctx.State() == Seeded(caps, Env(_ => 0, _ => 0, (_, _) => 0, drawn), old(ctx.State())).1
    ensures r.Some? && caps.random.Recorded? ==>
      r.value.seed == Some(Seeded(caps, Env(_ => 0, _ => 0, (_, _) => 0, drawn), old(ctx.State())).0)
  {
    var clocks := HostClock;
    match caps.clocks {
    case Deny => clocks := ZeroClock;
    case Allow =>
    case Recorded =>
      if ctx == null { return None; }
      var wall := new EvidenceWallClock(ctx);
      var mono := new EvidenceMonotonicClock(ctx);
      clocks := Evidenced(wall, mono);
    }
    var random, seed := HostRandom, None;
    match caps.random {
    case Deny => random, seed := ZeroRandom, Some(0);
    case Allow =>
    case Recorded =>
      if ctx == null { return None; }
      if ctx.mode == Record {
        ctx.SetInsecureSeed(drawn);
        seed := Some(drawn);
      } else {
        seed := Some(ctx.insecureSeed);
      }
      var secure := new EvidenceRng(ctx, Secure);
      var insecure := new EvidenceRng(ctx, Insecure);
      random := EvidencedRng(secure, insecure);
    }
    r := Some(Wiring(clocks, random, seed));
  }

  // ---------- providing the allowed secrets ----------

  datatype SecretLookup = Resolved(value: string, source: string) | NotThere | Unreadable

  datatype Provision = Provided(env: seq<(string, string)>) | SecretMissing(id: string) | ProviderFailed(id: string)

  function EnvKeyChar(c: char): char {
    if 'a' <= c <= 'z' then c - 'a' + 'A' else if 'A' <= c <= 'Z' || '0' <= c <= '9' then c else '_'
  }

  function EnvKey(id: string): string { "X07_SECRET_" + seq(|id|, i requires 0 <= i < |id| => EnvKeyChar(id[i])) }

  /** Letters are upper-cased, digits kept, everything else becomes an underscore. */
  lemma EnvKeyIs(id: string, i: nat)
    requires i < |id|
    ensures "X07_SECRET_" <= EnvKey(id) && |EnvKey(id)| == 11 + |id|
    ensures
      var (c, k) := (id[i], EnvKey(id)[11 + i]);
      var lower, upper := "abcdefghijklmnopqrstuvwxyz", "ABCDEFGHIJKLMNOPQRSTUVWXYZ";
      && (forall j :: 0 <= j < 26 && c == lower[j] ==> k == upper[j])
      && (c in upper || c in "0123456789" ==> k == c)
      && (c !in upper && c !in lower && c !in "0123456789" ==> k == '_')
  {
    Alphabets();
  }

  lemma Alphabets()
    ensures forall j :: 0 <= j < 26 ==> "abcdefghijklmnopqrstuvwxyz"[j] == 'a' + j as char
    ensures forall j :: 0 <= j < 26 ==> "ABCDEFGHIJKLMNOPQRSTUVWXYZ"[j] == 'A' + j as char
    ensures forall j :: 0 <= j < 10 ==> "0123456789"[j] == '0' + j as char
  {
  }

  /** The first n secrets were found and the next one, if any, was not. */
  ghost predicate StopsAt(ids: seq<string>, lookup: string -> SecretLookup, n: nat) {
    && n <= |ids| && (forall i :: 0 <= i < n ==> lookup(ids[i]).Resolved?)
    && (n < |ids| ==> !lookup(ids[n]).Resolved?)
  }

  ghost predicate ProvidedFirst(ids: seq<string>, lookup: string -> SecretLookup, env: seq<(string, string)>, given: seq<Secret>)
  {
    && |env| == |given| <= |ids|
    && forall i :: 0 <= i < |given| ==>
         lookup(ids[i]).Resolved? && env[i] == (EnvKey(ids[i]), lookup(ids[i]).value)
         && given[i] == Secret(ids[i], lookup(ids[i]).source)
  }

  /**
   The secrets part of building a WASI context: each allowed secret goes into the guest's environment and,
   while recording, into the evidence, up to the first one that is missing or unreadable.
   */
  method ProvideSecrets(ids: seq<string>, lookup: string -> SecretLookup, ctx: EvidenceCtx?) returns (r: Provision)
    modifies if ctx == null then {} else {ctx}
    ensures exists env, given ::
      && ProvidedFirst(ids, lookup, env, given) && StopsAt(ids, lookup, |given|)
      && r == (if |given| == |ids| then Provided(env)
               else if lookup(ids[|given|]).NotThere? then SecretMissing(ids[|given|])
               else ProviderFailed(ids[|given|]))
      && (ctx != null ==>
            ctx.State() == if ctx.mode.Record?
                           then old(ctx.State()).(secrets := old(ctx.State()).secrets + given) else old(ctx.State()))
  {
    hide EnvKey;
    var env: seq<(string, string)> := [];
    ghost var given: seq<Secret> := [];
    ghost var was := if ctx == null then [] else ctx.secretsProvided;
    for i := 0 to |ids|
      invariant |given| == i && ProvidedFirst(ids, lookup, env, given)
      invariant ctx != null ==>
        ctx.State() == if ctx.mode.Record? then old(ctx.State()).(secrets := was + given) else old(ctx.State())
    {
      match lookup(ids[i]) {
      case Resolved(value, source) =>
        env := env + [(EnvKey(ids[i]), value)];
        given := given + [Secret(ids[i], source)];
        if ctx != null && ctx.mode == Record { ctx.RecordSecret(ids[i], source); }
      case NotThere => return SecretMissing(ids[i]);
      case Unreadable => return ProviderFailed(ids[i]);
      }
    }
    r := Provided(env);
  }
}
