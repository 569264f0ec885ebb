/** Runs of `ZeroizeAlloc` itself: calling it call by call is what `WrapperRuns` says of runs. */
module WrapperExecution {
  import opened Memory
  import opened PageState
  import opened WrapperSpec
  import opened WrapperRuns
  import opened ZeroizingAlloc

  // The answer of the backend that a call goes with, if it asks for one
  function AnswerTo(call: Call): seq<Answer> {
    match call
    case Alloc(_, _, answer) => [answer]
    case Realloc(_, _, _, _, answer) => [answer]
    case _ => []
  }

  function Answers(calls: seq<Call>): seq<Answer> {
    if calls == [] then [] else AnswerTo(calls[0]) + Answers(calls[1..])
  }

  // The client stores into its block
  method StoreInBlock(z: ZeroizeAlloc, ptr: nat, at: nat, data: seq<Byte>)
    requires z.Valid() && ptr in z.backend.grants && at + |data| <= z.backend.grants[ptr].len
    modifies z.backend.mem
    ensures z.Valid()
    ensures old(Bounded(z.backend.Abs())) && z.backend.Abs() == old(ClientWrite(z.backend.Abs(), ptr, at, data))
  {
    ghost var h := z.backend.Abs();
    var start := ptr + at;
    forall i | 0 <= i < |data| {
      z.backend.mem[start + i] := data[i];
    }
    assert z.backend.mem[..] == Blit(h.mem, start, data);
  }

  method Perform(z: ZeroizeAlloc, call: Call) returns (answer: seq<Answer>)
    requires z.Valid() && CallOk(z.backend.Abs(), call) && AnswerTo(call) <= z.backend.script
    modifies z.backend, z.backend.mem
    ensures z.Valid()
    ensures old(HeapInv(z.backend.Abs()) && CallOk(z.backend.Abs(), call))
    ensures z.backend.Abs() == old(After(z.backend.Abs(), call)) && answer == AnswerTo(call)
    ensures old(z.backend.script) == AnswerTo(call) + z.backend.script
  {
    match call
    case Alloc(layout, zeroed, _) =>
      var a;
      if zeroed {
        a := z.AllocateZeroed(layout);
      } else {
        a := z.Allocate(layout);
      }
      answer := [a];
    case Free(ptr, layout) =>
      z.Deallocate(ptr, layout);
      answer := [];
    case Realloc(ptr, oldLayout, newLayout, zeroed, _) =>
      var a := z.Reallocate(ptr, oldLayout, newLayout, zeroed);
      answer := [a];
    case Store(ptr, at, data) =>
      StoreInBlock(z, ptr, at, data);
      answer := [];
  }

  lemma DropPrefix<T>(a: seq<T>, b: seq<T>, c: seq<T>)
    requires a + b == a + c
    ensures b == c
  {
    assert b == (a + b)[|a|..] && c == (a + c)[|a|..];
  }

  /**
   Any legal run, performed on the wrapper over the backend that gives its answers: the client gets
   those answers, and the heap ends as all theorems about runs of the wrapper say.
   */
  method Execute(z: ZeroizeAlloc, calls: seq<Call>) returns (answers: seq<Answer>)
    requires z.Valid() && LegalCalls(z.backend.Abs(), calls) && Answers(calls) == z.backend.script
    modifies z.backend, z.backend.mem
    ensures z.Valid()
    ensures old(HeapInv(z.backend.Abs()) && LegalCalls(z.backend.Abs(), calls))
    ensures z.backend.Abs() == old(AfterAll(z.backend.Abs(), calls)) && answers == Answers(calls)
    ensures z.backend.script == []
    decreases |calls|
  {
    if calls == [] {
      return [];
    }
    ghost var h := z.backend.Abs();
    CallWipes(h, calls[0]);
    var answer := Perform(z, calls[0]);
    assert z.backend.script == Answers(calls[1..]) by {
      assert AnswerTo(calls[0]) + Answers(calls[1..]) == AnswerTo(calls[0]) + z.backend.script;
      DropPrefix(AnswerTo(calls[0]), Answers(calls[1..]), z.backend.script);
    }
    var rest := Execute(z, calls[1..]);
    answers := answer + rest;
  }
}
