/**
 Capability evidence: the recorded clock readings, random bytes and seed of one
 guest run, the document they are saved in, and the replay that hands them out.
 The first half says on values what each operation does; the classes follow.
 */
module Evidence {
  import opened Words
  import opened JsonText
  import Base64

  const TWO128: int := TWO64 * TWO64

  type u128 = x: int | 0 <= x < TWO128

  datatype Mode = Record | Replay
  datatype Kind = Secure | Insecure
  datatype Secret = Secret(id: string, source: string)

  /** A recorded sequence and how much of it a replay has handed out. */
  datatype Stream<T> = Stream(items: seq<T>, next: nat)

  datatype Evidence = Evidence(
    mode: Mode, wall: Stream<u64>, mono: Stream<u64>, secure: Stream<byte>, insecure: Stream<byte>,
    seed: u128, secrets: seq<Secret>, errors: seq<string>)

  datatype Document = Document(
    schemaVersion: string, version: nat, wall: seq<u64>, mono: seq<u64>,
    secureB64: Bytes, insecureB64: Bytes, seedText: Bytes, secrets: seq<Secret>)

  datatype Problem = UnsupportedSchema | InvalidBase64 | InvalidSeed
  datatype Opened<+T> = Ready(value: T) | Rejected(why: Problem)

  const SCHEMA_VERSION := "x07.wasm.caps.evidence@0.1.0"
  const NO_WALL := "missing wall clock evidence"
  const NO_MONO := "missing monotonic clock evidence"
  const NO_SECURE := "missing secure random evidence"
  const NO_INSECURE := "missing insecure random evidence"

  // ---------- streams ----------

  function Fresh<T>(items: seq<T>): Stream<T> { Stream(items, 0) }

  predicate CanTake<T>(s: Stream<T>, want: nat) { s.next + want <= |s.items| }

  function Taken<T>(s: Stream<T>, want: nat): seq<T>
    requires CanTake(s, want)
  {
    s.items[s.next..s.next + want]
  }

  function Advanced<T>(s: Stream<T>, want: nat): Stream<T> { s.(next := s.next + want) }

  function Extended<T>(s: Stream<T>, more: seq<T>): Stream<T> { s.(items := s.items + more) }

  // ---------- the seed text ----------

  /** Reads digits to the end of the text onto n; None on another byte or past 2^128 - 1. */
  function DigitsToEnd(n: nat, s: Bytes): Option<nat>
    decreases |s|
  {
    if s == [] then Some(n)
    else if !IsDigit(s[0]) then None
    else
      var n1 := n * 10 + (s[0] - 0x30);
      if n1 >= TWO128 then None else DigitsToEnd(n1, s[1..])
  }

  const PLUS: byte := 0x2b

  function ParseU128(s: Bytes): Option<nat> {
    if s == [] || s == [PLUS] then None
    else DigitsToEnd(0, if s[0] == PLUS then s[1..] else s)
  }

  lemma {:induction false} DigitsOfDecimal128(n: nat, rest: Bytes)
    requires n < TWO128
    ensures DigitsToEnd(0, Decimal(n) + rest) == DigitsToEnd(n, rest)
    decreases n
  {
    if n < 10 {
      assert ([0x30 + n] + rest)[1..] == rest;
    } else {
      var last: byte := 0x30 + n % 10;
      DigitsOfDecimal128(n / 10, [last] + rest);
      assert Decimal(n) + rest == Decimal(n / 10) + ([last] + rest);
      assert ([last] + rest)[1..] == rest;
      assert (n / 10) * 10 + n % 10 == n;
    }
  }

  /** Parsing the seed undoes printing it. */
  lemma SeedRoundTrip(n: u128)
    ensures ParseU128(Decimal(n)) == Some(n)
  {
    DigitsOfDecimal128(n, []);
    assert Decimal(n) + [] == Decimal(n);
    assert IsDigit(Decimal(n)[0]);
  }

  lemma {:induction false} DigitsReadOn(d: Bytes, s: Bytes)
    requires AllDigits(d) && DecimalValue(d) < TWO128
    ensures DigitsToEnd(DecimalValue(d), s).Some? <==> AllDigits(s) && AllDigits(d + s) && DecimalValue(d + s) < TWO128
    ensures DigitsToEnd(DecimalValue(d), s).Some? ==> DigitsToEnd(DecimalValue(d), s).value == DecimalValue(d + s)
    decreases |s|
  {
    if s == [] {
      assert d + s == d;
    } else if IsDigit(s[0]) {
      var d1 := d + [s[0]];
      assert d1[..|d|] == d && d1 + s[1..] == d + s;
      if DecimalValue(d1) < TWO128 {
        DigitsReadOn(d1, s[1..]);
        assert AllDigits(s[1..]) <==> AllDigits(s);
      } else if AllDigits(s) {
        ValueGrows(d1, s[1..]);
      }
    }
  }

  lemma {:induction false} ValueGrows(d: Bytes, s: Bytes)
    requires AllDigits(d) && AllDigits(s)
    ensures AllDigits(d + s) && DecimalValue(d + s) >= DecimalValue(d)
    decreases |s|
  {
    if s == [] {
      assert d + s == d;
    } else {
      ValueGrows(d, s[..|s| - 1]);
      assert (d + s)[..|d + s| - 1] == d + s[..|s| - 1];
    }
  }

  /** A seed text is read exactly when it is digits, after an optional plus sign, of a number below 2^128. */
  lemma SeedTextIff(s: Bytes, n: nat)
    ensures ParseU128(s) == Some(n) <==>
      var d := if s != [] && s[0] == 0x2b then s[1..] else s;
      d != [] && AllDigits(d) && n == DecimalValue(d) && n < 0x1_0000_0000_0000_0000_0000_0000_0000_0000
  {
    hide DigitsToEnd;
    var d := if s != [] && s[0] == PLUS then s[1..] else s;
    DigitsReadOn([], d);
    assert [] + d == d;
  }

  // ---------- opening and saving ----------

  function NewRecord(): Evidence {
    Evidence(Record, Fresh([]), Fresh([]), Fresh([]), Fresh([]), 0, [], [])
  }

  function DecodeB64(s: Bytes): Option<Bytes> {
    if s == [] then Some([]) else Base64.StdDecode(s)
  }

  function SeedOf(s: Bytes): Option<nat> {
    if s == [] then Some(0) else ParseU128(s)
  }

  lemma {:induction false} DigitsBounded(n: nat, s: Bytes)
    requires n < TWO128 && DigitsToEnd(n, s).Some?
    ensures DigitsToEnd(n, s).value < TWO128
    decreases |s|
  {
    if s != [] { DigitsBounded(n * 10 + (s[0] - 0x30), s[1..]); }
  }

  lemma SeedBounded(s: Bytes)
    ensures SeedOf(s).Some? ==> SeedOf(s).value < TWO128
  {
    var digits := if s != [] && s[0] == PLUS then s[1..] else s;
    if DigitsToEnd(0, digits).Some? { DigitsBounded(0, digits); }
  }

  function NewReplay(doc: Document): Opened<Evidence> {
    if doc.schemaVersion != SCHEMA_VERSION then Rejected(UnsupportedSchema)
    else
      var secure, insecure := DecodeB64(doc.secureB64), DecodeB64(doc.insecureB64);
      if secure.None? || insecure.None? then Rejected(InvalidBase64)
      else
        var seed := SeedOf(doc.seedText);
        if seed.None? then Rejected(InvalidSeed)
        else
          SeedBounded(doc.seedText);
          Ready(Evidence(Replay, Fresh(doc.wall), Fresh(doc.mono), Fresh(secure.value), Fresh(insecure.value),
                         seed.value, doc.secrets, []))
  }

  function BuildDoc(e: Evidence): Document {
    Document(SCHEMA_VERSION, 1, e.wall.items, e.mono.items, Base64.Encode(e.secure.items),
             Base64.Encode(e.insecure.items), Decimal(e.seed), e.secrets)
  }

  /** A saved document opens as the recorded streams, all at their start. */
  function Rewound(e: Evidence): Evidence {
    Evidence(Replay, Fresh(e.wall.items), Fresh(e.mono.items), Fresh(e.secure.items), Fresh(e.insecure.items),
             e.seed, e.secrets, [])
  }

  lemma SavedDocumentOpens(e: Evidence)
    ensures NewReplay(BuildDoc(e)) == Ready(Rewound(e))
    ensures
      var doc := BuildDoc(e);
      && doc.schemaVersion == "x07.wasm.caps.evidence@0.1.0" && doc.version == 1
      && doc.wall == e.wall.items && doc.mono == e.mono.items && doc.secrets == e.secrets
      && Base64.StdDecode(doc.secureB64) == Some(e.secure.items) && Base64.StdDecode(doc.insecureB64) == Some(e.insecure.items)
  {
    hide Base64.StdDecode, Base64.Encode, ParseU128;
    Base64.StdDecodeIff(Base64.Encode(e.secure.items), e.secure.items);
    Base64.StdDecodeIff(Base64.Encode(e.insecure.items), e.insecure.items);
    EmptyEncoding(e.secure.items);
    EmptyEncoding(e.insecure.items);
    SeedRoundTrip(e.seed);
    SeedBounded(Decimal(e.seed));
  }

  lemma EmptyEncoding(bs: Bytes)
    ensures Base64.Encode(bs) == [] <==> bs == []
  {
  }

  /** A document is rejected exactly when its version, a byte text or the seed text is bad. */
  lemma ReplayOpensIff(doc: Document)
    ensures NewReplay(doc).Ready? <==>
      && doc.schemaVersion == "x07.wasm.caps.evidence@0.1.0"
      && (exists bs :: doc.secureB64 == Base64.Encode(bs))
      && (exists bs :: doc.insecureB64 == Base64.Encode(bs))
      && (doc.seedText == [] || ParseU128(doc.seedText).Some?)
    ensures NewReplay(doc) == Rejected(UnsupportedSchema) <==> doc.schemaVersion != "x07.wasm.caps.evidence@0.1.0"
    ensures NewReplay(doc) == Rejected(InvalidSeed) ==> doc.seedText != [] && ParseU128(doc.seedText).None?
    ensures NewReplay(doc) == Rejected(InvalidBase64) ==>
      !((exists bs :: doc.secureB64 == Base64.Encode(bs)) && (exists bs :: doc.insecureB64 == Base64.Encode(bs)))
  {
    hide Base64.Encode, Base64.StdDecode, ParseU128;
    DecodesIff(doc.secureB64);
    DecodesIff(doc.insecureB64);
  }

  lemma DecodesIff(t: Bytes)
    ensures DecodeB64(t).Some? <==> exists bs :: t == Base64.Encode(bs)
  {
    hide Base64.Encode, Base64.StdDecode;
    if t == [] {
      EmptyEncoding([]);
      assert t == Base64.Encode([]);
    } else if DecodeB64(t).Some? {
      Base64.StdDecodeIff(t, DecodeB64(t).value);
    } else {
      forall bs ensures t != Base64.Encode(bs) { Base64.StdDecodeIff(t, bs); }
    }
  }

  // ---------- clocks and random bytes ----------

  function Clamped(nanos: nat): u64 { if nanos < TWO64 then nanos else TWO64 - 1 }

  function WallNow(e: Evidence, nanos: nat): (u64, Evidence) {
    if e.mode.Record? then (Clamped(nanos), e.(wall := Extended(e.wall, [Clamped(nanos)])))
    else if CanTake(e.wall, 1) then (e.wall.items[e.wall.next], e.(wall := Advanced(e.wall, 1)))
    else (0, e.(errors := e.errors + [NO_WALL]))
  }

  function MonoNow(e: Evidence, nanos: nat): (u64, Evidence) {
    if e.mode.Record? then (Clamped(nanos), e.(mono := Extended(e.mono, [Clamped(nanos)])))
    else if CanTake(e.mono, 1) then (e.mono.items[e.mono.next], e.(mono := Advanced(e.mono, 1)))
    else (0, e.(errors := e.errors + [NO_MONO]))
  }

  function Random(e: Evidence, kind: Kind): Stream<byte> { if kind.Secure? then e.secure else e.insecure }

  function WithRandom(e: Evidence, kind: Kind, s: Stream<byte>): Evidence {
    if kind.Secure? then e.(secure := s) else e.(insecure := s)
  }

  function Underflow(kind: Kind): string { if kind.Secure? then NO_SECURE else NO_INSECURE }

  function Zeros(n: nat): Bytes { seq(n, _ => 0) }

  function ReplayBytes(e: Evidence, kind: Kind, want: nat): (r: (Bytes, Evidence))
    ensures |r.0| == want
  {
    var s := Random(e, kind);
    if CanTake(s, want) then (Taken(s, want), WithRandom(e, kind, Advanced(s, want)))
    else (Zeros(want), e.(errors := e.errors + [Underflow(kind)]))
  }

  function RecordBytes(e: Evidence, kind: Kind, bytes: Bytes): Evidence {
    WithRandom(e, kind, Extended(Random(e, kind), bytes))
  }

  /** `drawn` is what the host generator would give. */
  function FillBytes(e: Evidence, kind: Kind, drawn: Bytes): (Bytes, Evidence) {
    if e.mode.Replay? then ReplayBytes(e, kind, |drawn|) else (drawn, RecordBytes(e, kind, drawn))
  }

  /** Little-endian value. */
  function FromLe(bs: Bytes): nat {
    if bs == [] then 0 else bs[0] + 256 * FromLe(bs[1..])
  }

  function ToLe(k: nat, n: nat): Bytes {
    if k == 0 then [] else [n % 256] + ToLe(k - 1, n / 256)
  }

  lemma {:induction false} LeRoundTrip(bs: Bytes)
    ensures ToLe(|bs|, FromLe(bs)) == bs
  {
    if bs != [] {
      LeRoundTrip(bs[1..]);
      assert FromLe(bs) % 256 == bs[0] && FromLe(bs) / 256 == FromLe(bs[1..]);
    }
  }

  /** The words a generator hands out, written out in bytes. */
  lemma WordsOfBytes(bs: Bytes)
    ensures |bs| == 4 ==> FromLe(bs) == Four(bs, 0)
    ensures |bs| == 8 ==> FromLe(bs) == Four(bs, 0) + 0x1_0000_0000 * Four(bs, 4)
  {
    if |bs| == 8 { LeFour(bs[4..]); }
    if |bs| >= 4 { LeFour(bs); }
  }

  function Four(bs: Bytes, i: nat): nat
    requires i + 4 <= |bs|
  {
    (bs[i] as int) + 0x100 * (bs[i + 1] as int) + 0x1_0000 * (bs[i + 2] as int) + 0x100_0000 * (bs[i + 3] as int)
  }

  lemma LeFour(bs: Bytes)
    requires |bs| >= 4
    ensures FromLe(bs) == Four(bs, 0) + 0x1_0000_0000 * FromLe(bs[4..])
  {
    assert bs[1..][1..] == bs[2..] && bs[2..][1..] == bs[3..] && bs[3..][1..] == bs[4..];
  }

  // ---------- the shared context ----------

  class EvidenceCtx {
    const mode: Mode
    var wallClockNowNs: seq<u64>
    var monotonicClockNowNs: seq<u64>
    var secureRandomBytes: Bytes
    var insecureRandomBytes: Bytes
    var insecureSeed: u128
    var secretsProvided: seq<Secret>
    var wallClockI: nat
    var monotonicClockI: nat
    var secureRandomI: nat
    var insecureRandomI: nat
    var replayErrors: seq<string>

    ghost predicate Valid()
      reads this
    {
      && wallClockI <= |wallClockNowNs|
      && monotonicClockI <= |monotonicClockNowNs|
      && secureRandomI <= |secureRandomBytes|
      && insecureRandomI <= |insecureRandomBytes|
    }

    ghost function State(): Evidence
      reads this
    {
      Evidence(mode, Stream(wallClockNowNs, wallClockI), Stream(monotonicClockNowNs, monotonicClockI),
               Stream(secureRandomBytes, secureRandomI), Stream(insecureRandomBytes, insecureRandomI),
               insecureSeed, secretsProvided, replayErrors)
    }

    constructor Recording()
      ensures Valid() && State() == NewRecord()
    {
      mode := Record;
      wallClockNowNs, monotonicClockNowNs, secureRandomBytes, insecureRandomBytes := [], [], [], [];
      insecureSeed, secretsProvided, replayErrors := 0, [], [];
      wallClockI, monotonicClockI, secureRandomI, insecureRandomI := 0, 0, 0, 0;
    }

    constructor Replaying(doc: Document, secure: Bytes, insecure: Bytes, seed: u128)
      ensures Valid()
      ensures State() == Evidence(Replay, Fresh(doc.wall), Fresh(doc.mono), Fresh(secure), Fresh(insecure),
                                  seed, doc.secrets, [])
    {
      mode := Replay;
      wallClockNowNs, monotonicClockNowNs := doc.wall, doc.mono;
      secureRandomBytes, insecureRandomBytes := secure, insecure;
      insecureSeed, secretsProvided, replayErrors := seed, doc.secrets, [];
      wallClockI, monotonicClockI, secureRandomI, insecureRandomI := 0, 0, 0, 0;
    }

    static method OpenReplay(doc: Document) returns (r: Opened<EvidenceCtx>)
      ensures r.Rejected? ==> NewReplay(doc) == Rejected(r.why)
      ensures r.Ready? ==> fresh(r.value) && r.value.Valid() && NewReplay(doc) == Ready(r.value.State())
    {
      if doc.schemaVersion != SCHEMA_VERSION { return Rejected(UnsupportedSchema); }
      var secure := DecodeB64(doc.secureB64);
      if secure.None? { return Rejected(InvalidBase64); }
      var insecure := DecodeB64(doc.insecureB64);
      if insecure.None? { return Rejected(InvalidBase64); }
      var seed: u128 := 0;
      if doc.seedText != [] {
        var parsed := ParseU128(doc.seedText);
        if parsed.None? { return Rejected(InvalidSeed); }
        SeedBounded(doc.seedText);
        seed := parsed.value;
      }
      var ctx := new EvidenceCtx.Replaying(doc, secure.value, insecure.value, seed);
      return Ready(ctx);
    }

    method RecordWallClock(ns: u64)
      modifies this`wallClockNowNs
      ensures wallClockNowNs == old(wallClockNowNs) + [ns]
    {
      wallClockNowNs := wallClockNowNs + [ns];
    }

    method ReplayWallClock() returns (r: Option<u64>)
      requires mode.Replay?
      modifies this`wallClockI, this`replayErrors
      ensures old(Valid()) ==> Valid()
      ensures (if r.Some? then r.value else 0, State()) == WallNow(old(State()), 0)
      ensures r.None? <==> old(wallClockI) >= |wallClockNowNs|
    {
      if wallClockI >= |wallClockNowNs| {
        replayErrors := replayErrors + [NO_WALL];
        return None;
      }
      r := Some(wallClockNowNs[wallClockI]);
      wallClockI := wallClockI + 1;
    }

    method RecordMonotonicClock(ns: u64)
      modifies this`monotonicClockNowNs
      ensures monotonicClockNowNs == old(monotonicClockNowNs) + [ns]
    {
      monotonicClockNowNs := monotonicClockNowNs + [ns];
    }

    method ReplayMonotonicClock() returns (r: Option<u64>)
      requires mode.Replay?
      modifies this`monotonicClockI, this`replayErrors
      ensures old(Valid()) ==> Valid()
      ensures (if r.Some? then r.value else 0, State()) == MonoNow(old(State()), 0)
      ensures r.None? <==> old(monotonicClockI) >= |monotonicClockNowNs|
    {
      if monotonicClockI >= |monotonicClockNowNs| {
        replayErrors := replayErrors + [NO_MONO];
        return None;
      }
      r := Some(monotonicClockNowNs[monotonicClockI]);
      monotonicClockI := monotonicClockI + 1;
    }

    method RecordRandom(kind: Kind, bytes: Bytes)
      modifies this`secureRandomBytes, this`insecureRandomBytes
      ensures State() == RecordBytes(old(State()), kind, bytes)
    {
      if kind.Secure? {
        secureRandomBytes := secureRandomBytes + bytes;
      } else {
        insecureRandomBytes := insecureRandomBytes + bytes;
      }
    }

    method ReplaySecureInto(out: array<byte>)
      requires Valid()
      modifies out, this`secureRandomI, this`replayErrors
      ensures Valid()
      ensures (out[..], State()) == ReplayBytes(old(State()), Secure, out.Length)
    {
      var want := out.Length;
      var remain := |secureRandomBytes| - secureRandomI;
      if remain < want {
        replayErrors := replayErrors + [NO_SECURE];
        FillZero(out);
        return;
      }
      var start := secureRandomI;
      var end := start + want;
      CopyInto(out, secureRandomBytes[start..end]);
      secureRandomI := end;
    }

    method ReplayInsecureInto(out: array<byte>)
      requires Valid()
      modifies out, this`insecureRandomI, this`replayErrors
      ensures Valid()
      ensures (out[..], State()) == ReplayBytes(old(State()), Insecure, out.Length)
    {
      var want := out.Length;
      var remain := |insecureRandomBytes| - insecureRandomI;
      if remain < want {
        replayErrors := replayErrors + [NO_INSECURE];
        FillZero(out);
        return;
      }
      var start := insecureRandomI;
      var end := start + want;
      CopyInto(out, insecureRandomBytes[start..end]);
      insecureRandomI := end;
    }

    method SetInsecureSeed(seed: u128)
      modifies this`insecureSeed
      ensures insecureSeed == seed
    {
      insecureSeed := seed;
    }

    method RecordSecret(id: string, source: string)
      modifies this`secretsProvided
      ensures secretsProvided == old(secretsProvided) + [Secret(id, source)]
    {
      secretsProvided := secretsProvided + [Secret(id, source)];
    }

    method Save() returns (doc: Document)
      ensures doc == BuildDoc(State())
    {
      doc := Document(SCHEMA_VERSION, 1, wallClockNowNs, monotonicClockNowNs, Base64.Encode(secureRandomBytes),
                      Base64.Encode(insecureRandomBytes), Decimal(insecureSeed), secretsProvided);
    }
  }

  method FillZero(out: array<byte>)
    modifies out
    ensures out[..] == Zeros(out.Length)
  {
    for i := 0 to out.Length
      invariant forall k :: 0 <= k < i ==> out[k] == 0
    {
      out[i] := 0;
    }
  }

  method CopyInto(out: array<byte>, bytes: Bytes)
    requires |bytes| == out.Length
    modifies out
    ensures out[..] == bytes
  {
    for i := 0 to out.Length
      invariant out[..i] == bytes[..i]
    {
      out[i] := bytes[i];
      assert out[..i + 1] == bytes[..i] + [bytes[i]];
    }
  }

  // ---------- the host objects a guest reads from ----------

  class EvidenceWallClock {
    const evidence: EvidenceCtx

    constructor (ctx: EvidenceCtx)
      ensures evidence == ctx
    {
      evidence := ctx;
    }

    /** `nanos` is the host's time since the epoch. */
    method Now(nanos: nat) returns (ns: u64)
      requires evidence.Valid()
      modifies evidence
      ensures evidence.Valid()
      ensures (ns, evidence.State()) == WallNow(old(evidence.State()), nanos)
    {
      if evidence.mode == Record {
        ns := if nanos < TWO64 then nanos else TWO64 - 1;
        evidence.RecordWallClock(ns);
      } else {
        var r := evidence.ReplayWallClock();
        ns := if r.Some? then r.value else 0;
      }
    }
  }

  class EvidenceMonotonicClock {
    const evidence: EvidenceCtx

    constructor (ctx: EvidenceCtx)
      ensures evidence == ctx
    {
      evidence := ctx;
    }

    /** `nanos` is the time since the clock was made. */
    method Now(nanos: nat) returns (ns: u64)
      requires evidence.Valid()
      modifies evidence
      ensures evidence.Valid()
      ensures (ns, evidence.State()) == MonoNow(old(evidence.State()), nanos)
    {
      if evidence.mode == Record {
        ns := if nanos < TWO64 then nanos else TWO64 - 1;
        evidence.RecordMonotonicClock(ns);
      } else {
        var r := evidence.ReplayMonotonicClock();
        ns := if r.Some? then r.value else 0;
      }
    }
  }

  class EvidenceRng {
    const kind: Kind
    const evidence: EvidenceCtx

    /** Whether the host generator was seeded. */
    const seeded: bool

    constructor (ctx: EvidenceCtx, k: Kind)
      ensures evidence == ctx && kind == k && seeded == (ctx.mode == Record)
    {
      kind, evidence := k, ctx;
      seeded := ctx.mode == Record;
    }

    /** `drawn` is what the host generator would give for this call. */
    method Fill(buf: array<byte>, drawn: Bytes)
      requires evidence.Valid() && |drawn| == buf.Length
      modifies buf, evidence
      ensures evidence.Valid()
      ensures seeded || evidence.mode.Replay? ==>
        (buf[..], evidence.State()) == FillBytes(old(evidence.State()), kind, drawn)
      ensures !seeded && evidence.mode.Record? ==>
        buf[..] == Zeros(buf.Length) && evidence.State() == old(evidence.State())
    {
      if evidence.mode == Replay {
        if kind == Secure { evidence.ReplaySecureInto(buf); } else { evidence.ReplayInsecureInto(buf); }
        return;
      }
      if seeded {
        CopyInto(buf, drawn);
        evidence.RecordRandom(kind, buf[..]);
      } else {
        FillZero(buf);
      }
    }

    method NextU32(drawn: Bytes) returns (n: nat)
      requires evidence.Valid() && |drawn| == 4 && seeded == evidence.mode.Record?
      modifies evidence
      ensures evidence.Valid()
      ensures evidence.State() == FillBytes(old(evidence.State()), kind, drawn).1
      ensures ToLe(4, n) == FillBytes(old(evidence.State()), kind, drawn).0
      ensures n == FromLe(FillBytes(old(evidence.State()), kind, drawn).0)
    {
      var buf := new byte[4];
      Fill(buf, drawn);
      LeRoundTrip(buf[..]);
      n := FromLe(buf[..]);
    }

    method NextU64(drawn: Bytes) returns (n: nat)
      requires evidence.Valid() && |drawn| == 8 && seeded == evidence.mode.Record?
      modifies evidence
      ensures evidence.Valid()
      ensures evidence.State() == FillBytes(old(evidence.State()), kind, drawn).1
      ensures ToLe(8, n) == FillBytes(old(evidence.State()), kind, drawn).0
      ensures n == FromLe(FillBytes(old(evidence.State()), kind, drawn).0)
    {
      var buf := new byte[8];
      Fill(buf, drawn);
      LeRoundTrip(buf[..]);
      n := FromLe(buf[..]);
    }
  }
}
