/** The observable actions of a consumer loop, in order: a summary line
    handed on (sent to the channel, or printed), a frame freed, an idle
    sleep, the engine told to stop. */
module Trace {

  datatype Event = Emit(line: string) | Free(id: nat) | Sleep | Stop

  /** The lines handed on, in order. */
  function Emitted(ev: seq<Event>): seq<string>
    decreases |ev|
  {
    if |ev| == 0 then [] else (if ev[0].Emit? then [ev[0].line] else []) + Emitted(ev[1..])
  }

  /** The frames freed, in order. */
  function Freed(ev: seq<Event>): seq<nat>
    decreases |ev|
  {
    if |ev| == 0 then [] else (if ev[0].Free? then [ev[0].id] else []) + Freed(ev[1..])
  }

  function Sleeps(ev: seq<Event>): nat
    decreases |ev|
  {
    if |ev| == 0 then 0 else (if ev[0].Sleep? then 1 else 0) + Sleeps(ev[1..])
  }

  function Stops(ev: seq<Event>): nat
    decreases |ev|
  {
    if |ev| == 0 then 0 else (if ev[0].Stop? then 1 else 0) + Stops(ev[1..])
  }

  /** The projections distribute over concatenation of traces. */
  lemma {:induction false} EmittedAppend(a: seq<Event>, b: seq<Event>)
    ensures Emitted(a + b) == Emitted(a) + Emitted(b)
    decreases |a|
  {
    if |a| == 0 {
      assert a + b == b;
    } else {
      assert (a + b)[1..] == a[1..] + b;
      EmittedAppend(a[1..], b);
    }
  }

  lemma {:induction false} FreedAppend(a: seq<Event>, b: seq<Event>)
    ensures Freed(a + b) == Freed(a) + Freed(b)
    decreases |a|
  {
    if |a| == 0 {
      assert a + b == b;
    } else {
      assert (a + b)[1..] == a[1..] + b;
      FreedAppend(a[1..], b);
    }
  }

  lemma {:induction false} CountsAppend(a: seq<Event>, b: seq<Event>)
    ensures Sleeps(a + b) == Sleeps(a) + Sleeps(b)
    ensures Stops(a + b) == Stops(a) + Stops(b)
    decreases |a|
  {
    if |a| == 0 {
      assert a + b == b;
    } else {
      assert (a + b)[1..] == a[1..] + b;
      CountsAppend(a[1..], b);
    }
  }

  /** The trace of an iteration that handed on `line` and freed frame `id`. */
  lemma BusyIteration(line: string, id: nat, tail: seq<Event>)
    ensures var ev := [Emit(line), Free(id)] + tail;
      Emitted(ev) == [line] + Emitted(tail) && Freed(ev) == [id] + Freed(tail)
      && Sleeps(ev) == Sleeps(tail) && Stops(ev) == Stops(tail)
  {
    var ev := [Emit(line), Free(id)] + tail;
    assert ev[1..] == [Free(id)] + tail;
    assert ev[1..][1..] == tail;
  }

  /** Every frame is freed right after its line is handed on, and nothing
      is freed otherwise. */
  ghost predicate EmitThenFree(ev: seq<Event>) {
    && (forall j :: 0 <= j < |ev| && ev[j].Emit? ==> j + 1 < |ev| && ev[j + 1].Free?)
    && (forall j :: 0 <= j < |ev| && ev[j].Free? ==> 0 < j && ev[j - 1].Emit?)
  }

  lemma EmitThenFreeAppend(a: seq<Event>, b: seq<Event>)
    requires EmitThenFree(a) && EmitThenFree(b)
    ensures EmitThenFree(a + b)
  {
    var c := a + b;
    forall j | 0 <= j < |c| && c[j].Emit? ensures j + 1 < |c| && c[j + 1].Free? {
      if j < |a| { assert a[j].Emit?; } else { assert b[j - |a|].Emit?; }
    }
    forall j | 0 <= j < |c| && c[j].Free? ensures 0 < j && c[j - 1].Emit? {
      if j < |a| { assert a[j].Free?; } else { assert b[j - |a|].Free?; }
    }
  }
}
