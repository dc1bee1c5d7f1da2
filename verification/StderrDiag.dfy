/**
 The host's reading of a guest's diagnostic from standard error, against a reading by
 lines, and its agreement with what guests write.
 */
module StderrDiag {
  import opened Words
  import Base64
  import NativeCli

  type Bytes = seq<byte>

  const NEWLINE: byte := 0x0a
  const RETURN: byte := 0x0d
  const SPACE: byte := 0x20
  const TAB: byte := 0x09

  const CODE_PREFIX := Ascii("x07-diag-code: ")
  const DATA_PREFIX := Ascii("x07-diag-data-b64: ")
  const MAX_SCAN: nat := 8192

  // ---------- trimming ----------

  predicate IsOws(b: byte) { b == SPACE || b == TAB }

  predicate AllOws(s: Bytes) { forall i :: 0 <= i < |s| ==> s[i] == 0x20 || s[i] == 0x09 }

  /** Neither end is a space or a tab. */
  predicate Tight(s: Bytes) { s != [] ==> s[0] !in {0x20, 0x09} && s[|s| - 1] !in {0x20, 0x09} }

  function TrimEnd(s: Bytes): Bytes {
    if s != [] && IsOws(s[|s| - 1]) then TrimEnd(s[..|s| - 1]) else s
  }

  function Trim(s: Bytes): Bytes {
    if s != [] && IsOws(s[0]) then Trim(s[1..]) else TrimEnd(s)
  }

  /** Trimming takes off exactly the spaces and tabs at both ends. */
  lemma {:induction false} TrimPadded(a: Bytes, t: Bytes, b: Bytes)
    requires AllOws(a) && AllOws(b) && Tight(t)
    ensures Trim(a + t + b) == t
    decreases |a| + |b|
  {
    var s := a + t + b;
    if a != [] {
      assert s[0] == a[0] && s[1..] == a[1..] + t + b;
      TrimPadded(a[1..], t, b);
    } else if t == [] && b != [] {
      assert s == b && s[0] == b[0];
      assert s[1..] == [] + t + b[1..];
      TrimPadded([], t, b[1..]);
    } else {
      assert s == t + b;
      TrimEndPadded(t, b);
    }
  }

  lemma {:induction false} TrimEndPadded(t: Bytes, b: Bytes)
    requires AllOws(b) && Tight(t)
    ensures TrimEnd(t + b) == t
  {
    if b == [] {
      assert t + b == t;
    } else {
      var s := t + b;
      assert s[|s| - 1] == b[|b| - 1] && s[..|s| - 1] == t + b[..|b| - 1];
      TrimEndPadded(t, b[..|b| - 1]);
    }
  }

  method TrimOws(bytes: Bytes) returns (r: Bytes)
    ensures r == Trim(bytes)
  {
    var start, end := 0, |bytes|;
    while start < end && IsOws(bytes[start])
      invariant 0 <= start <= end == |bytes|
      invariant Trim(bytes[start..]) == Trim(bytes)
    {
      assert bytes[start..][1..] == bytes[start + 1..];
      start := start + 1;
    }
    assert bytes[start..end] == bytes[start..];
    while end > start && IsOws(bytes[end - 1])
      invariant start <= end <= |bytes|
      invariant TrimEnd(bytes[start..end]) == Trim(bytes)
    {
      assert bytes[start..end][..end - start - 1] == bytes[start..end - 1];
      end := end - 1;
    }
    r := bytes[start..end];
  }

  // ---------- lines ----------

  /** The text split at newlines; a text has one more line than newlines. */
  function Lines(s: Bytes): (r: seq<Bytes>)
    ensures r != []
  {
    if s == [] then [[]]
    else if s[0] == NEWLINE then [[]] + Lines(s[1..])
    else
      var rest := Lines(s[1..]);
      [[s[0]] + rest[0]] + rest[1..]
  }

  function CountOf(lines: seq<Bytes>, prefix: Bytes): nat {
    if lines == [] then 0 else (if prefix <= lines[0] then 1 else 0) + CountOf(lines[1..], prefix)
  }

  function FirstOf(lines: seq<Bytes>, prefix: Bytes): (r: Option<Bytes>)
    ensures r.Some? <==> CountOf(lines, prefix) > 0
    ensures r.Some? ==> prefix <= r.value
  {
    if lines == [] then None
    else if prefix <= lines[0] then Some(lines[0])
    else FirstOf(lines[1..], prefix)
  }

  predicate OneLine(s: Bytes) { NEWLINE !in s }

  /** A prefix without newlines starts the text exactly when it starts its first line. */
  lemma {:induction false} StartsFirstLine(s: Bytes, prefix: Bytes)
    requires OneLine(prefix)
    ensures prefix <= s <==> prefix <= Lines(s)[0]
    ensures prefix <= s ==> Lines(s[|prefix|..])[0] == Lines(s)[0][|prefix|..]
  {
    if prefix != [] && s != [] {
      if s[0] == NEWLINE {
        assert prefix[0] in prefix;
      } else {
        StartsFirstLine(s[1..], prefix[1..]);
        assert s == [s[0]] + s[1..] && prefix == [prefix[0]] + prefix[1..];
        assert Lines(s)[0] == [s[0]] + Lines(s[1..])[0];
        if prefix <= s { assert s[|prefix|..] == s[1..][|prefix| - 1..]; }
      }
    } else if prefix == [] {
      assert s[0..] == s;
    }
  }

  predicate IsStart(s: Bytes, i: nat)
    requires i <= |s|
  {
    i == 0 || s[i - 1] == NEWLINE
  }

  /** The lines that start at i or later. */
  function Upcoming(s: Bytes, i: nat): seq<Bytes>
    requires i <= |s|
  {
    if IsStart(s, i) then Lines(s[i..]) else Lines(s[i..])[1..]
  }

  lemma UpcomingStep(s: Bytes, i: nat)
    requires i < |s|
    ensures Upcoming(s, i) == if IsStart(s, i) then [Lines(s[i..])[0]] + Upcoming(s, i + 1) else Upcoming(s, i + 1)
  {
    assert s[i..][0] == s[i] && s[i..][1..] == s[i + 1..];
    var rest := Lines(s[i + 1..]);
    assert Lines(s[i..])[1..] == if s[i] == NEWLINE then rest else rest[1..];
  }

  /** Counts the lines that start with the prefix and finds the first. */
  method CountLineStartMatches(scan: Bytes, prefix: Bytes) returns (count: nat, pos: Option<nat>)
    ensures prefix != [] && OneLine(prefix) ==> count == CountOf(Lines(scan), prefix)
    ensures pos.Some? ==> pos.value < |scan| && prefix <= scan[pos.value..]
    ensures prefix != [] && OneLine(prefix) ==>
      FirstOf(Lines(scan), prefix) == if pos.Some? then Some(Lines(scan[pos.value..])[0]) else None
  {
    hide Lines, Upcoming, OneLine;
    count, pos := 0, None;
    ghost var lines := Lines(scan);
    ghost var proper := prefix != [] && OneLine(prefix);
    WholeUpcoming(scan);
    for i := 0 to |scan|
      invariant proper ==> count + CountOf(Upcoming(scan, i), prefix) == CountOf(lines, prefix)
      invariant pos.Some? ==> pos.value < |scan| && prefix <= scan[pos.value..]
      invariant proper && pos.Some? ==> FirstOf(lines, prefix) == Some(Lines(scan[pos.value..])[0])
      invariant proper && pos.None? ==> FirstOf(Upcoming(scan, i), prefix) == FirstOf(lines, prefix)
    {
      UpcomingStep(scan, i);
      if proper { StartsFirstLine(scan[i..], prefix); }
      if !IsStart(scan, i) { continue; }
      assert ([Lines(scan[i..])[0]] + Upcoming(scan, i + 1))[1..] == Upcoming(scan, i + 1);
      if prefix <= scan[i..] {
        count := count + 1;
        if pos.None? { pos := Some(i); }
      }
    }
    if proper { NothingUpcoming(scan, prefix); }
  }

  lemma WholeUpcoming(s: Bytes)
    ensures Upcoming(s, 0) == Lines(s)
  {
    assert s[0..] == s;
  }

  lemma NothingUpcoming(s: Bytes, prefix: Bytes)
    requires prefix != []
    ensures CountOf(Upcoming(s, |s|), prefix) == 0
  {
    assert s[|s|..] == [];
    assert Lines([]) == [[]];
    var up := Upcoming(s, |s|);
    assert up == [[]] || up == [];
    var one: seq<Bytes> := [[]];
    assert one[1..] == [];
  }

  // ---------- one sentinel line ----------

  function WithoutReturn(s: Bytes): Bytes {
    if s != [] && s[|s| - 1] == RETURN then s[..|s| - 1] else s
  }

  /** What a line says after its prefix. */
  function ValueOf(line: Bytes, prefix: Bytes): Bytes
    requires prefix <= line
  {
    Trim(WithoutReturn(line[|prefix|..]))
  }

  lemma {:induction false} FirstLineEnds(s: Bytes, k: nat)
    requires k <= |s| && OneLine(s[..k]) && (k == |s| || s[k] == NEWLINE)
    ensures Lines(s)[0] == s[..k]
  {
    if k > 0 {
      assert s[..k][0] == s[0] && s[0] in s[..k];
      assert s[1..][..k - 1] == s[..k][1..];
      FirstLineEnds(s[1..], k - 1);
      assert s[..k] == [s[0]] + s[1..][..k - 1];
    }
  }

  method ParseSentinelLineValue(scan: Bytes, pos: nat, prefix: Bytes) returns (r: Bytes)
    requires pos + |prefix| <= |scan|
    ensures r == Trim(WithoutReturn(Lines(scan[pos + |prefix|..])[0]))
  {
    hide Lines, Trim;
    var start := pos + |prefix|;
    var end := start;
    while end < |scan| && scan[end] != NEWLINE
      invariant start <= end <= |scan| && OneLine(scan[start..end])
    {
      assert scan[start..end + 1] == scan[start..end] + [scan[end]];
      end := end + 1;
    }
    ghost var rest := scan[start..];
    assert rest[..end - start] == scan[start..end];
    FirstLineEnds(rest, end - start);
    if end > start && scan[end - 1] == RETURN {
      assert scan[start..end - 1] == scan[start..end][..end - start - 1];
      end := end - 1;
    }
    r := TrimOws(scan[start..end]);
  }

  predicate CodeByte(b: byte) { 0x41 <= b <= 0x5a || 0x30 <= b <= 0x39 || b == 0x5f }

  predicate ValidCode(code: Bytes) {
    1 <= |code| <= 128 && forall i :: 0 <= i < |code| ==> CodeByte(code[i])
  }

  /** Upper-case letters, digits and the underscore. */
  lemma CodeByteIs(b: byte)
    ensures CodeByte(b) <==>
      b in Ascii("ABCDEFGHIJKLMNOPQRSTUVWXYZ") || b in Ascii("0123456789") || b in Ascii("_")
  {
    var upper, digits := Ascii("ABCDEFGHIJKLMNOPQRSTUVWXYZ"), Ascii("0123456789");
    assert Ascii("_") == [0x5f];
    hide Ascii;
    forall v: nat | v < 26 ensures upper[v] == 0x41 + v { Base64.UpperIs(v); }
    forall v: nat | v < 10 ensures digits[v] == 0x30 + v { Base64.DigitIs(v); }
    if 0x41 <= b <= 0x5a { assert upper[b - 0x41] == b; }
    if 0x30 <= b <= 0x39 { assert digits[b - 0x30] == b; }
  }

  method ParseDiagCode(trimmed: Bytes) returns (ok: bool)
    ensures ok <==> ValidCode(trimmed)
  {
    if |trimmed| == 0 || |trimmed| > 128 { return false; }
    for i := 0 to |trimmed|
      invariant forall k :: 0 <= k < i ==> CodeByte(trimmed[k])
    {
      if !CodeByte(trimmed[i]) { return false; }
    }
    ok := true;
  }

  // ---------- the whole diagnosis ----------

  datatype Refusal = CodeDuplicate | DataDuplicate | DataOrphan | CodeInvalid | DataInvalid

  datatype Diagnosis = NoDiag | Found(code: Bytes, data: Option<Bytes>) | Refused(why: Refusal)

  /** Reads the lines of the scanned part; `isObject` says which bytes are a JSON object. */
  function Diagnose(lines: seq<Bytes>, isObject: Bytes -> bool): Diagnosis {
    var code, data := FirstOf(lines, CODE_PREFIX), FirstOf(lines, DATA_PREFIX);
    if CountOf(lines, CODE_PREFIX) > 1 then Refused(CodeDuplicate)
    else if CountOf(lines, DATA_PREFIX) > 1 then Refused(DataDuplicate)
    else if data.Some? && code.None? then Refused(DataOrphan)
    else if code.None? then NoDiag
    else
      var text := ValueOf(code.value, CODE_PREFIX);
      if !ValidCode(text) then Refused(CodeInvalid)
      else if data.None? then Found(text, None)
      else
        var decoded := Base64.StrictDecode(ValueOf(data.value, DATA_PREFIX));
        if decoded.Ok? && isObject(decoded.bytes) then Found(text, Some(decoded.bytes)) else Refused(DataInvalid)
  }

  function Scanned(stderr: Bytes): Bytes { stderr[..if |stderr| < MAX_SCAN then |stderr| else MAX_SCAN] }

  method ExtractGuestDiagFromStderr(stderr: Bytes, isObject: Bytes -> bool) returns (r: Diagnosis)
    ensures r == Diagnose(Lines(stderr[..if |stderr| < 8192 then |stderr| else 8192]), isObject)
  {
    hide Lines, CountOf, FirstOf, Trim, WithoutReturn, ValidCode, OneLine, Base64.StrictDecode, Ascii;
    PrefixesAreOneLine();
    var scan := Scanned(stderr);
    var codeCount, codePos := CountLineStartMatches(scan, CODE_PREFIX);
    if codeCount > 1 { return Refused(CodeDuplicate); }
    var dataCount, dataPos := CountLineStartMatches(scan, DATA_PREFIX);
    if dataCount > 1 { return Refused(DataDuplicate); }
    if dataPos.Some? && codePos.None? { return Refused(DataOrphan); }
    if codePos.None? { return NoDiag; }
    var code := ParseSentinelLineValue(scan, codePos.value, CODE_PREFIX);
    ValueAt(scan, codePos.value, CODE_PREFIX);
    var valid := ParseDiagCode(code);
    if !valid { return Refused(CodeInvalid); }
    if dataPos.None? { return Found(code, None); }
    var text := ParseSentinelLineValue(scan, dataPos.value, DATA_PREFIX);
    ValueAt(scan, dataPos.value, DATA_PREFIX);
    var decoded := Base64.StrictBase64Decode(text);
    if decoded.Err? || !isObject(decoded.bytes) { return Refused(DataInvalid); }
    r := Found(code, Some(decoded.bytes));
  }

  lemma PrefixesAreOneLine()
    ensures CODE_PREFIX != [] && OneLine(CODE_PREFIX) && DATA_PREFIX != [] && OneLine(DATA_PREFIX)
  {
    AsciiOneLine("x07-diag-code: ");
    AsciiOneLine("x07-diag-data-b64: ");
  }

  lemma AsciiOneLine(s: string)
    requires forall c :: c in s ==> '\n' < c < '\U{0080}'
    ensures OneLine(Ascii(s))
  {
    forall i | 0 <= i < |s| ensures Ascii(s)[i] != NEWLINE {
      assert s[i] in s;
    }
  }

  lemma ValueAt(scan: Bytes, pos: nat, prefix: Bytes)
    requires pos < |scan| && prefix <= scan[pos..] && OneLine(prefix)
    ensures
      var line := Lines(scan[pos..])[0];
      prefix <= line && Lines(scan[pos + |prefix|..])[0] == line[|prefix|..]
  {
    hide Lines;
    StartsFirstLine(scan[pos..], prefix);
    assert scan[pos..][|prefix|..] == scan[pos + |prefix|..];
  }

  // ---------- what guests write ----------

  lemma {:induction false} LinesOfJoin(a: Bytes, b: Bytes)
    ensures Lines(a + [NEWLINE] + b) == Lines(a) + Lines(b)
  {
    var s := a + [NEWLINE] + b;
    if a == [] {
      assert s[1..] == b;
    } else {
      assert s[0] == a[0] && s[1..] == a[1..] + [NEWLINE] + b;
      LinesOfJoin(a[1..], b);
    }
  }

  lemma {:induction false} LinesOfOne(a: Bytes)
    requires OneLine(a)
    ensures Lines(a) == [a]
  {
    if a != [] {
      assert a[0] in a;
      LinesOfOne(a[1..]);
      assert [a[0]] + a[1..] == a;
    }
  }

  predicate OneLines(lines: seq<Bytes>) { lines != [] && forall i :: 0 <= i < |lines| ==> OneLine(lines[i]) }

  /** The lines joined by newlines. */
  function Text(lines: seq<Bytes>): Bytes
    requires lines != []
  {
    if |lines| == 1 then lines[0] else lines[0] + [NEWLINE] + Text(lines[1..])
  }

  /** Joining lines and splitting the text again gives the lines. */
  lemma {:induction false} LinesOfText(lines: seq<Bytes>)
    requires OneLines(lines)
    ensures Lines(Text(lines)) == lines
    decreases |lines|
  {
    hide Lines, OneLine;
    LinesOfOne(lines[0]);
    if |lines| > 1 {
      LinesOfText(lines[1..]);
      LinesOfJoin(lines[0], Text(lines[1..]));
      assert [lines[0]] + lines[1..] == lines;
    } else {
      assert [lines[0]] == lines;
    }
  }

  predicate NoneStarts(lines: seq<Bytes>, prefix: Bytes) { forall i :: 0 <= i < |lines| ==> !(prefix <= lines[i]) }

  /** Line k is the one line with this prefix. */
  predicate OnlyLine(lines: seq<Bytes>, prefix: Bytes, k: nat) {
    k < |lines| && forall i :: 0 <= i < |lines| ==> (prefix <= lines[i] <==> i == k)
  }

  lemma {:induction false} NoneCounted(lines: seq<Bytes>, prefix: Bytes)
    ensures NoneStarts(lines, prefix) <==> CountOf(lines, prefix) == 0
    decreases |lines|
  {
    if lines != [] {
      NoneCounted(lines[1..], prefix);
      assert forall i :: 1 <= i < |lines| ==> lines[1..][i - 1] == lines[i];
    }
  }

  lemma {:induction false} OnlyCounted(lines: seq<Bytes>, prefix: Bytes, k: nat)
    requires OnlyLine(lines, prefix, k)
    ensures CountOf(lines, prefix) == 1 && FirstOf(lines, prefix) == Some(lines[k])
    decreases |lines|
  {
    if k == 0 {
      NoneCounted(lines[1..], prefix);
    } else {
      assert !(prefix <= lines[0]);
      OnlyCounted(lines[1..], prefix, k - 1);
    }
  }

  lemma {:induction false} OneCounted(lines: seq<Bytes>, prefix: Bytes) returns (k: nat)
    requires CountOf(lines, prefix) == 1
    ensures OnlyLine(lines, prefix, k)
    decreases |lines|
  {
    if prefix <= lines[0] {
      k := 0;
      NoneCounted(lines[1..], prefix);
      assert forall i :: 1 <= i < |lines| ==> lines[1..][i - 1] == lines[i];
    } else {
      k := OneCounted(lines[1..], prefix);
      k := k + 1;
      assert forall i :: 1 <= i < |lines| ==> lines[1..][i - 1] == lines[i];
    }
  }

  /** A line with one sentinel, possibly with a carriage return and padding. */
  function SentinelLine(prefix: Bytes, pad: Bytes, value: Bytes, pad2: Bytes, cr: bool): Bytes {
    prefix + (pad + value + pad2) + if cr then [RETURN] else []
  }

  lemma SentinelValue(prefix: Bytes, pad: Bytes, value: Bytes, pad2: Bytes, cr: bool)
    requires AllOws(pad) && AllOws(pad2) && Tight(value) && (value != [] ==> value[|value| - 1] != RETURN)
    ensures
      var line := SentinelLine(prefix, pad, value, pad2, cr);
      prefix <= line && ValueOf(line, prefix) == value
  {
    hide Trim;
    var body := pad + value + pad2;
    var line := SentinelLine(prefix, pad, value, pad2, cr);
    assert line[|prefix|..] == body + if cr then [RETURN] else [];
    TrimPadded(pad, value, pad2);
    if cr {
      assert (body + [RETURN])[..|body|] == body;
    } else {
      assert body + [] == body;
      if body != [] {
        assert body[|body| - 1] == if pad2 != [] then pad2[|pad2| - 1] else if value != [] then value[|value| - 1] else pad[|pad| - 1];
      }
    }
  }

  /** The one code line says this valid code. */
  ghost predicate SaysCode(lines: seq<Bytes>, code: Bytes) {
    exists c: nat :: OnlyLine(lines, Ascii("x07-diag-code: "), c)
      && ValueOf(lines[c], Ascii("x07-diag-code: ")) == code && ValidCode(code)
  }

  /** There is no data line, or the one data line spells the bytes of a JSON object. */
  ghost predicate SaysData(lines: seq<Bytes>, data: Option<Bytes>, isObject: Bytes -> bool) {
    if data.None? then NoneStarts(lines, DATA_PREFIX)
    else
      exists d: nat :: OnlyLine(lines, Ascii("x07-diag-data-b64: "), d)
        && Base64.StrictDecode(ValueOf(lines[d], Ascii("x07-diag-data-b64: "))) == Base64.Ok(data.value)
        && isObject(data.value)
  }

  /** Two lines have this prefix. */
  ghost predicate Repeated(lines: seq<Bytes>, prefix: Bytes) {
    exists i, j :: 0 <= i < j < |lines| && prefix <= lines[i] && prefix <= lines[j]
  }

  lemma {:induction false} RepeatedCounted(lines: seq<Bytes>, prefix: Bytes)
    ensures Repeated(lines, prefix) <==> CountOf(lines, prefix) > 1
    decreases |lines|
  {
    if lines != [] {
      NoneCounted(lines[1..], prefix);
      RepeatedCounted(lines[1..], prefix);
      var rest := lines[1..];
      assert forall i :: 0 <= i < |rest| ==> rest[i] == lines[i + 1];
      if Repeated(rest, prefix) {
        var i, j :| 0 <= i < j < |rest| && prefix <= rest[i] && prefix <= rest[j];
        assert prefix <= lines[i + 1] && prefix <= lines[j + 1];
      }
      if prefix <= lines[0] && !NoneStarts(rest, prefix) {
        var j :| 0 <= j < |rest| && prefix <= rest[j];
        assert prefix <= lines[j + 1];
      }
      if Repeated(lines, prefix) && !(prefix <= lines[0]) {
        var i, j :| 0 <= i < j < |lines| && prefix <= lines[i] && prefix <= lines[j];
        assert rest[i - 1] == lines[i] && rest[j - 1] == lines[j];
      }
    }
  }

  /** When nothing is said, and which refusal comes when, in the order of the code. */
  lemma RefusalsIff(lines: seq<Bytes>, isObject: Bytes -> bool)
    ensures
      var d := Diagnose(lines, isObject);
      var code, data := Ascii("x07-diag-code: "), Ascii("x07-diag-data-b64: ");
      && (d == NoDiag <==> NoneStarts(lines, code) && NoneStarts(lines, data))
      && (d == Refused(CodeDuplicate) <==> Repeated(lines, code))
      && (d == Refused(DataDuplicate) <==> !Repeated(lines, code) && Repeated(lines, data))
      && (d == Refused(DataOrphan) <==> NoneStarts(lines, code) && !NoneStarts(lines, data) && !Repeated(lines, data))
      && (d == Refused(CodeInvalid) <==>
            !Repeated(lines, data)
            && exists c: nat :: OnlyLine(lines, code, c) && !ValidCode(ValueOf(lines[c], code)))
  {
    hide ValueOf, ValidCode, CountOf, FirstOf, NoneStarts, Repeated, Base64.StrictDecode, Ascii;
    NoneCounted(lines, CODE_PREFIX);
    NoneCounted(lines, DATA_PREFIX);
    RepeatedCounted(lines, CODE_PREFIX);
    RepeatedCounted(lines, DATA_PREFIX);
    if CountOf(lines, CODE_PREFIX) == 1 {
      var c := OneCounted(lines, CODE_PREFIX);
      OnlyCounted(lines, CODE_PREFIX, c);
    }
    forall c: nat | OnlyLine(lines, CODE_PREFIX, c)
      ensures CountOf(lines, CODE_PREFIX) == 1 && FirstOf(lines, CODE_PREFIX) == Some(lines[c])
    {
      OnlyCounted(lines, CODE_PREFIX, c);
    }
  }

  /**
   The scanned bytes give this code and these data exactly when one line says the code and one line, before
   or after it, says the data; any other lines may surround them.
   */
  lemma SentinelsAreFound(stderr: Bytes, lines: seq<Bytes>, code: Bytes, data: Option<Bytes>, isObject: Bytes -> bool)
    requires OneLines(lines) && Scanned(stderr) == Text(lines)
    ensures Diagnose(Lines(Scanned(stderr)), isObject) == Found(code, data)
        <==> SaysCode(lines, code) && SaysData(lines, data, isObject)
  {
    hide Lines, Scanned, Text, OneLines, ValueOf, ValidCode, CountOf, FirstOf, OnlyLine, NoneStarts, Base64.StrictDecode;
    LinesOfText(lines);
    NoneCounted(lines, DATA_PREFIX);
    if Diagnose(lines, isObject) == Found(code, data) { FoundIsSaid(lines, code, data, isObject); }
    if SaysCode(lines, code) && SaysData(lines, data, isObject) { SaidIsFound(lines, code, data, isObject); }
  }

  lemma FoundIsSaid(lines: seq<Bytes>, code: Bytes, data: Option<Bytes>, isObject: Bytes -> bool)
    requires Diagnose(lines, isObject) == Found(code, data)
    ensures SaysCode(lines, code) && SaysData(lines, data, isObject)
  {
    hide ValueOf, ValidCode, CountOf, FirstOf, OnlyLine, NoneStarts, Base64.StrictDecode;
    var c := OneCounted(lines, CODE_PREFIX);
    OnlyCounted(lines, CODE_PREFIX, c);
    if data.None? {
      NoneCounted(lines, DATA_PREFIX);
    } else {
      var d := OneCounted(lines, DATA_PREFIX);
      OnlyCounted(lines, DATA_PREFIX, d);
    }
  }

  lemma SaidIsFound(lines: seq<Bytes>, code: Bytes, data: Option<Bytes>, isObject: Bytes -> bool)
    requires SaysCode(lines, code) && SaysData(lines, data, isObject)
    ensures Diagnose(lines, isObject) == Found(code, data)
  {
    hide ValueOf, ValidCode, CountOf, FirstOf, NoneStarts, Base64.StrictDecode;
    var c: nat :| OnlyLine(lines, CODE_PREFIX, c) && ValueOf(lines[c], CODE_PREFIX) == code && ValidCode(code);
    OnlyCounted(lines, CODE_PREFIX, c);
    if data.None? {
      NoneCounted(lines, DATA_PREFIX);
    } else {
      var d: nat :| OnlyLine(lines, DATA_PREFIX, d)
        && Base64.StrictDecode(ValueOf(lines[d], DATA_PREFIX)) == Base64.Ok(data.value) && isObject(data.value);
      OnlyCounted(lines, DATA_PREFIX, d);
    }
  }

  /** Data a guest encodes, up to the size limit, are said by their line. */
  lemma EncodedDataAreSaid(lines: seq<Bytes>, d: nat, data: Bytes, isObject: Bytes -> bool)
    requires OnlyLine(lines, DATA_PREFIX, d) && ValueOf(lines[d], DATA_PREFIX) == Base64.Encode(data)
    requires |data| <= Base64.MAX_DECODED && isObject(data)
    ensures SaysData(lines, Some(data), isObject)
  {
    hide ValueOf, OnlyLine, Base64.StrictDecode, Base64.Encode;
    Base64.StrictDecodeEncode(data);
  }

  /** What the native glue writes for a code is read back as that code. */
  lemma NativeDiagIsRead(code: Bytes, isObject: Bytes -> bool)
    requires ValidCode(code)
    ensures Diagnose(Lines(Scanned(NativeCli.DiagLine(code))), isObject) == Found(code, None)
  {
    hide Trim, Lines, ValueOf, ValidCode, Ascii, CountOf, FirstOf, Scanned, SentinelLine;
    var line := CODE_PREFIX + code;
    var lines := [line] + [[]];
    NativeText(code);
    SentinelValue(CODE_PREFIX, [], code, [], false);
    PrefixesAreOneLine();
    PrefixesDiffer(line);
    assert OnlyLine(lines, CODE_PREFIX, 0);
    SaidIsFound(lines, code, None, isObject);
  }

  lemma PrefixesDiffer(line: Bytes)
    ensures !(CODE_PREFIX <= line && DATA_PREFIX <= line)
  {
    assert CODE_PREFIX[9] == 'c' as int && DATA_PREFIX[9] == 'd' as int;
  }

  lemma NativeText(code: Bytes)
    requires ValidCode(code)
    ensures Tight(code) && code[|code| - 1] != RETURN
    ensures SentinelLine(CODE_PREFIX, [], code, [], false) == CODE_PREFIX + code
    ensures Lines(Scanned(NativeCli.DiagLine(code))) == [CODE_PREFIX + code] + [[]]
  {
    hide Lines, Ascii;
    var line := CODE_PREFIX + code;
    PrefixesAreOneLine();
    assert NativeCli.DIAG_SUFFIX == [NEWLINE] by { NewlineText(); }
    assert line + [NEWLINE] + [] == line + [NEWLINE];
    forall i | 0 <= i < |line| ensures line[i] != NEWLINE {
      assert i < |CODE_PREFIX| ==> line[i] == CODE_PREFIX[i] && CODE_PREFIX[i] in CODE_PREFIX;
    }
    LinesOfOne(line);
    LinesOfJoin(line, []);
    LinesOfOne([]);
  }

  lemma NewlineText()
    ensures Ascii("\n") == [NEWLINE]
  {
  }

  lemma AsciiCode(s: string)
    requires 1 <= |s| <= 128 && forall c :: c in s ==> 'A' <= c <= 'Z' || '0' <= c <= '9' || c == '_'
    ensures ValidCode(Ascii(s))
  {
    forall i | 0 <= i < |s| ensures CodeByte(Ascii(s)[i]) { assert s[i] in s; }
  }

  lemma ReadFailedIsValid()
    ensures ValidCode(NativeCli.DIAG_READ_FAILED)
  {
    hide ValidCode, Ascii;
    AsciiCode("X07WASM_COMPONENT_RUN_STDIN_READ_FAILED");
  }

  lemma StdinBudgetIsValid()
    ensures ValidCode(NativeCli.DIAG_STDIN_BUDGET)
  {
    hide ValidCode, Ascii;
    AsciiCode("X07WASM_BUDGET_EXCEEDED_CLI_STDIN");
  }

  lemma StdoutBudgetIsValid()
    ensures ValidCode(NativeCli.DIAG_STDOUT_BUDGET)
  {
    hide ValidCode, Ascii;
    AsciiCode("X07WASM_BUDGET_EXCEEDED_CLI_STDOUT");
  }

  /** Every code the native glue writes is one the host reads back. */
  lemma NativeCodesAreRead(code: Bytes, isObject: Bytes -> bool)
    requires code == NativeCli.DIAG_READ_FAILED || code == NativeCli.DIAG_STDIN_BUDGET || code == NativeCli.DIAG_STDOUT_BUDGET
    ensures
      Diagnose(Lines(Scanned(NativeCli.DiagLine(code))), isObject) == Found(code, None)
  {
    hide ValidCode, Ascii, Lines, Diagnose, Scanned;
    ReadFailedIsValid();
    StdinBudgetIsValid();
    StdoutBudgetIsValid();
    NativeDiagIsRead(code, isObject);
  }
}
