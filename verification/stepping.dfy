/** The stepping engine behind `Module.__call__` and `Module.execute`.

    `execute` is a generator; one pass of it is modelled by the sequence of
    booleans it yields, and the live generator object by a cursor into that
    sequence. A fresh generator (cursor 0) is created when the module is
    constructed and again right after a call that returned `False`. */
module Stepping {
  import opened Wrappers

  /** A generator object of `execute`: the yields of one pass and how many
      of them have already been consumed. */
  datatype Stepper = Stepper(pass: seq<bool>, cursor: nat)

  /** Calling a generator that has nothing more to yield raises. */
  datatype StepError = StopIteration

  /** The yields of the default `execute`: a single `False`. */
  const DefaultPass: seq<bool> := [false]

  /** `self.execute()`: a generator that has not started yet. */
  function Fresh(pass: seq<bool>): Stepper
  {
    Stepper(pass, 0)
  }

  /** `__call__`: take the next yield; on `False` replace the generator by a
      fresh one, on `True` keep it, advanced by one yield. */
  function Step(s: Stepper): (r: Result<(bool, Stepper), StepError>)
    ensures r.Success? <==> s.cursor < |s.pass|
    ensures r.Success? ==> r.value.0 == s.pass[s.cursor] && r.value.1.pass == s.pass
    ensures r.Success? && r.value.0 ==> r.value.1.cursor == s.cursor + 1
    ensures r.Success? && !r.value.0 ==> r.value.1 == Fresh(s.pass)
  {
    if s.cursor < |s.pass| then
      var b := s.pass[s.cursor];
      Success((b, if b then Stepper(s.pass, s.cursor + 1) else Fresh(s.pass)))
    else
      Failure(StopIteration)
  }

  /** What a run of consecutive calls produced: the booleans returned, in
      order, and the generator left behind. */
  datatype Trace = Trace(outs: seq<bool>, last: Stepper)

  /** `k` calls in a row, or the `StopIteration` that escapes the first
      failing call. */
  function Run(s: Stepper, k: nat): Result<Trace, StepError>
    decreases k
  {
    if k == 0 then Success(Trace([], s))
    else
      var r := Step(s);
      if r.Failure? then Failure(r.error)
      else
        var rest := Run(r.value.1, k - 1);
        if rest.Failure? then rest
        else Success(Trace([r.value.0] + rest.value.outs, rest.value.last))
  }

  /** The position of the first `False` of a pass: every earlier yield is
      `True`. */
  function FirstFalse(pass: seq<bool>): (i: nat)
    requires false in pass
    ensures i < |pass| && !pass[i]
    ensures forall j :: 0 <= j < i ==> pass[j]
  {
    if !pass[0] then 0
    else
      assert false in pass[1..] by {
        var k :| 0 <= k < |pass| && pass[k] == false;
        assert pass[1..][k - 1] == pass[k];
      }
      1 + FirstFalse(pass[1..])
  }

  /** The part of a pass that is actually replayed: its yields up to and
      including the first `False`. */
  function Cycle(pass: seq<bool>): seq<bool>
    requires false in pass
  {
    pass[..FirstFalse(pass) + 1]
  }

  /** `m` copies of `c` laid end to end. */
  function Repeat(c: seq<bool>, m: nat): seq<bool>
  {
    if m == 0 then [] else c + Repeat(c, m - 1)
  }

  /** A generator positioned before a `False` in its pass. */
  predicate Live(s: Stepper)
  {
    s.cursor < |s.pass| && false in s.pass[s.cursor..]
  }

  /** A call on a live generator never raises and leaves a live generator:
      a pass containing a `False` can be driven forever. */
  lemma StepPreservesLive(s: Stepper)
    requires Live(s)
    ensures Step(s).Success?
    ensures Live(Step(s).value.1)
  {
  }

  /** Running `a` calls and then `b` more is the same as running `a + b`
      calls, with the outputs concatenated. */
  lemma {:induction false} RunCompose(s: Stepper, a: nat, b: nat)
    requires Run(s, a).Success?
    ensures var first := Run(s, a).value;
      var second := Run(first.last, b);
      Run(s, a + b) ==
        if second.Failure? then second
        else Success(Trace(first.outs + second.value.outs, second.value.last))
    decreases a
  {
    if a > 0 {
      assert Step(s).Success?;
      var st := Step(s).value;
      var r1 := Run(st.1, a - 1);
      assert r1.Success?;
      var first := Run(s, a).value;
      assert first == Trace([st.0] + r1.value.outs, r1.value.last);
      RunCompose(st.1, a - 1, b);
      assert a + b - 1 == (a - 1) + b;
      var second := Run(first.last, b);
      var rest := Run(st.1, a + b - 1);
      assert Run(s, a + b) ==
        if rest.Failure? then rest
        else Success(Trace([st.0] + rest.value.outs, rest.value.last));
      if second.Success? {
        assert rest == Success(Trace(r1.value.outs + second.value.outs, second.value.last));
        assert [st.0] + (r1.value.outs + second.value.outs) == first.outs + second.value.outs;
      } else {
        assert rest == second;
      }
    } else {
      var second := Run(s, b);
      if second.Success? {
        assert [] + second.value.outs == second.value.outs;
      }
    }
  }

  /** From any point before the first `False`, calling until the end of
      the cycle returns the rest of the cycle and leaves a fresh generator. */
  lemma {:induction false} RunToRestart(pass: seq<bool>, c: nat)
    requires false in pass && c <= FirstFalse(pass)
    ensures Run(Stepper(pass, c), FirstFalse(pass) + 1 - c) ==
      Success(Trace(pass[c..FirstFalse(pass) + 1], Fresh(pass)))
    decreases FirstFalse(pass) - c
  {
    var f := FirstFalse(pass);
    var s := Stepper(pass, c);
    if c == f {
      assert Step(s) == Success((false, Fresh(pass)));
      assert Run(Fresh(pass), 0) == Success(Trace([], Fresh(pass)));
      assert [pass[c]] + [] == pass[c..f + 1];
    } else {
      assert pass[c];
      assert Step(s) == Success((true, Stepper(pass, c + 1)));
      RunToRestart(pass, c + 1);
      assert f + 1 - c - 1 == f + 1 - (c + 1);
      assert pass[c..f + 1] == [pass[c]] + pass[c + 1..f + 1];
    }
  }

  /** Restart on completion: driven from a fresh generator, the calls
      return the cycle of the pass over and over, and after each full cycle
      the generator is fresh again. */
  lemma {:induction false} RunRepeatsCycle(pass: seq<bool>, m: nat)
    requires false in pass
    ensures Run(Fresh(pass), |Repeat(Cycle(pass), m)|) ==
      Success(Trace(Repeat(Cycle(pass), m), Fresh(pass)))
    decreases m
  {
    var c := Cycle(pass);
    if m == 0 {
      assert Repeat(c, 0) == [];
    } else {
      RunToRestart(pass, 0);
      assert pass[0..FirstFalse(pass) + 1] == c;
      RunRepeatsCycle(pass, m - 1);
      RunCompose(Fresh(pass), |c|, |Repeat(c, m - 1)|);
      assert Repeat(c, m) == c + Repeat(c, m - 1);
    }
  }

  /** A pass with no `False` can be driven through once, every call
      returning `True`, and the next call raises `StopIteration`. */
  lemma {:induction false} RunWithoutFalseStops(pass: seq<bool>, c: nat)
    requires false !in pass && c <= |pass|
    ensures Run(Stepper(pass, c), |pass| - c) == Success(Trace(pass[c..], Stepper(pass, |pass|)))
    ensures Run(Stepper(pass, c), |pass| - c + 1).Failure?
    decreases |pass| - c
  {
    var s := Stepper(pass, c);
    if c == |pass| {
      assert Step(s).Failure?;
      assert Run(s, 1) == Failure(StopIteration);
    } else {
      assert pass[c] by { assert pass[c] in pass; }
      assert Step(s) == Success((true, Stepper(pass, c + 1)));
      RunWithoutFalseStops(pass, c + 1);
      assert |pass| - c - 1 == |pass| - (c + 1);
      assert |pass| - c + 1 - 1 == |pass| - (c + 1) + 1;
      assert pass[c..] == [pass[c]] + pass[c + 1..];
    }
  }

  /** The default `execute` yields a single `False`: every call returns
      `False` and leaves the generator as it found it. */
  lemma {:induction false} DefaultExecuteIdles(k: nat)
    ensures Run(Fresh(DefaultPass), k) == Success(Trace(Repeat(DefaultPass, k), Fresh(DefaultPass)))
    decreases k
  {
    if k > 0 {
      assert Step(Fresh(DefaultPass)) == Success((false, Fresh(DefaultPass)));
      DefaultExecuteIdles(k - 1);
    }
  }

  /** The pass `[True, True, False]`: the fourth call starts a fresh pass
      and returns the first yield again. */
  lemma ThreeStepPassRestarts()
    ensures Run(Fresh([true, true, false]), 4) ==
      Success(Trace([true, true, false, true], Stepper([true, true, false], 1)))
  {
    var p := [true, true, false];
    assert Step(Stepper(p, 0)) == Success((true, Stepper(p, 1)));
    assert Step(Stepper(p, 1)) == Success((true, Stepper(p, 2)));
    assert Step(Stepper(p, 2)) == Success((false, Stepper(p, 0)));
    assert Run(Stepper(p, 1), 0) == Success(Trace([], Stepper(p, 1)));
    assert [true] + [] == [true];
    assert Run(Stepper(p, 0), 1) == Success(Trace([true], Stepper(p, 1)));
    assert [false] + [true] == [false, true];
    assert Run(Stepper(p, 2), 2) == Success(Trace([false, true], Stepper(p, 1)));
    assert [true] + [false, true] == [true, false, true];
    assert Run(Stepper(p, 1), 3) == Success(Trace([true, false, true], Stepper(p, 1)));
    assert [true] + [true, false, true] == [true, true, false, true];
  }
}
