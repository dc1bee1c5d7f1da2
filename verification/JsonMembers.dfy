/**
 The object loop all adapter parsers share: read a key, let a handler consume the
 value, continue at a comma, stop at the brace. On the print of an object it is a
 fold over the members.
 */
module JsonMembers {
  import opened Words
  import opened JsonText
  import opened JsonScan

  /** A handler consumes one value: the new state and the remaining bytes. */
  type Handler<!S> = (S, Bytes, Bytes) -> Option<(S, Bytes)>

  /** What a handler means on a value tree. */
  type Evaluator<!S> = (S, Bytes, Json) -> Option<S>

  /** The loop from the first key; a handler never gives back more than it was given. */
  function MemberLoop<S>(step: Handler<S>, st: S, s: Bytes): (r: Option<(S, Bytes)>)
    ensures r.Some? ==> |r.value.1| < |s|
    decreases |s|
  {
    var k := ParseKey(s);
    if k.None? then None
    else
      var v := step(st, k.value.0, k.value.1);
      if v.None? || |v.value.1| > |k.value.1| then None
      else
        var t := SkipWs(v.value.1);
        if Starts(t, COMMA) then MemberLoop(step, v.value.0, t[1..])
        else if Starts(t, RBRACE) then Some((v.value.0, t[1..]))
        else None
  }

  /** A whole object. */
  function ObjectLoop<S>(step: Handler<S>, st: S, s: Bytes): (r: Option<(S, Bytes)>)
    ensures r.Some? ==> |r.value.1| < |s|
  {
    var o := Expect(s, LBRACE);
    if o.None? then None else MemberLoop(step, st, SkipWs(o.value))
  }

  function FoldMembers<S>(eval: Evaluator<S>, st: S, ms: Members): Option<S>
    requires GoodMembers(ms)
  {
    if ms.NoMembers? then Some(st)
    else
      var e := eval(st, Meaning(ms.key), ms.v);
      if e.None? then None else FoldMembers(eval, e.value, ms.rest)
  }

  /** Bytes after which the loop cannot continue. */
  predicate Blocks(t: Bytes) { t != [] && !IsWs(t[0]) && t[0] != COMMA && t[0] != RBRACE && t[0] != RBRACKET }

  /** On this value the handler does what the evaluator says, or fails where the evaluator has no meaning. */
  ghost predicate AgreesOn<S>(step: Handler<S>, eval: Evaluator<S>, st: S, key: Bytes, v: Json, rest: Bytes) {
    Good(v) && Delimits(rest) ==>
      var r := step(st, key, Print(v) + rest);
      match eval(st, key, v)
      case Some(st') => r == Some((st', rest))
      case None => r.None? || Blocks(r.value.1)
  }

  ghost predicate Agrees<S(!new)>(step: Handler<S>, eval: Evaluator<S>) {
    forall st: S, key: Bytes, v: Json, rest: Bytes :: AgreesOn(step, eval, st, key, v, rest)
  }

  function Outcome<S>(e: Option<S>, rest: Bytes): Option<(S, Bytes)> {
    if e.None? then None else Some((e.value, rest))
  }

  lemma MemberLoopIgnoresWs<S>(step: Handler<S>, st: S, s: Bytes)
    ensures MemberLoop(step, st, SkipWs(s)) == MemberLoop(step, st, s)
  {
    hide ParseString, SkipWs;
    SkipWsTwice(s);
  }

  /** Past one member: its handler ran on its value, and the loop goes on with the rest. */
  lemma PastMember<S(!new)>(step: Handler<S>, eval: Evaluator<S>, st: S, ms: Members, rest: Bytes)
    requires Agrees(step, eval) && ms.Member? && GoodMembers(ms)
    ensures
      var looped := MemberLoop(step, st, SkipWs(PrintMembers(ms) + rest));
      match eval(st, Meaning(ms.key), ms.v)
      case None => looped.None?
      case Some(st') =>
        looped == if ms.rest.Member? then MemberLoop(step, st', PrintMembers(ms.rest) + rest) else Some((st', rest))
  {
    hide SkipWs, Print, PrintMembers, ParseKey, Good, IsUtf8, Meaning, PrintString, PrintKey;
    var tail := MemberTail(ms) + rest;
    var s2 := ms.after + tail;
    var s1 := Print(ms.v) + s2;
    MemberLoopIgnoresWs(step, st, PrintMembers(ms) + rest);
    assert PrintMembers(ms) + rest == PrintKey(ms) + s1 by { PrintMembersIs(ms); }
    FirstByte(ms.v);
    KeyRead(ms, s1);
    DelimitsAfter(ms.after, tail);
    assert AgreesOn(step, eval, st, Meaning(ms.key), ms.v, s2);
    var v := step(st, Meaning(ms.key), s1);
    var e := eval(st, Meaning(ms.key), ms.v);
    if e.Some? {
      WsSkipped(ms.after, tail);
      assert tail[1..] == if ms.rest.Member? then PrintMembers(ms.rest) + rest else rest;
    } else if v.Some? {
      WsSkipped([], v.value.1);
      assert [] + v.value.1 == v.value.1;
    }
  }

  lemma {:induction false} LoopOverMembers<S(!new)>(step: Handler<S>, eval: Evaluator<S>, st: S, ms: Members, rest: Bytes)
    requires Agrees(step, eval) && ms.Member? && GoodMembers(ms)
    ensures MemberLoop(step, st, SkipWs(PrintMembers(ms) + rest)) == Outcome(FoldMembers(eval, st, ms), rest)
    decreases ms
  {
    hide MemberLoop, SkipWs, PrintMembers, Good, Meaning, Agrees;
    PastMember(step, eval, st, ms, rest);
    var e := eval(st, Meaning(ms.key), ms.v);
    if e.Some? && ms.rest.Member? {
      LoopOverMembers(step, eval, e.value, ms.rest, rest);
      MemberLoopIgnoresWs(step, e.value, PrintMembers(ms.rest) + rest);
    }
  }

  /** The loop over a printed object folds the evaluator over its members; an empty object is rejected. */
  lemma ObjectEvaluated<S(!new)>(step: Handler<S>, eval: Evaluator<S>, st: S, t: Json, rest: Bytes)
    requires Agrees(step, eval) && Good(t) && t.Obj?
    ensures ObjectLoop(step, st, Print(t) + rest)
         == if t.members.NoMembers? then None else Outcome(FoldMembers(eval, st, t.members), rest)
  {
    hide SkipWs, PrintMembers, MemberLoop;
    var s := Print(t) + rest;
    if t.members.NoMembers? {
      assert s[1..] == t.pad + ([RBRACE] + rest);
      WsSkipped(t.pad, [RBRACE] + rest);
      BraceIsNoKey(step, st, rest);
    } else {
      assert s[1..] == PrintMembers(t.members) + rest;
      LoopOverMembers(step, eval, st, t.members, rest);
    }
  }

  lemma BraceIsNoKey<S>(step: Handler<S>, st: S, rest: Bytes)
    ensures MemberLoop(step, st, [RBRACE] + rest) == None
  {
  }

  /** A value that is not an object is rejected at once. */
  lemma NotAnObject<S>(step: Handler<S>, st: S, t: Json, rest: Bytes)
    requires Good(t) && !t.Obj?
    ensures ObjectLoop(step, st, Print(t) + rest) == None
  {
    hide MemberLoop, PrintNumber, PrintString;
    FirstByte(t);
    if t.Num? { NumberSkipped(t.n, []); }
    if t.Str? { QuoteFirst(t.parts); }
    assert (Print(t) + rest)[0] == Print(t)[0];
  }
}
