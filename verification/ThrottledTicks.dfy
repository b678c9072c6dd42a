/** The throttled interval of src/common.rs: ticks of an inner interval are passed on unless one
    was passed on less than nine tenths of a period ago.  Times are exact. */
module ThrottledTicks {
  import opened Common

  /** One poll: what the inner interval answers, and the time right after. */
  datatype Poll = Poll(inner: Option<real>, now: real)

  class ThrottledInterval {
    const minInterval: real
    var nextTick: real

    constructor (period: real, now: real)
      requires period >= 0.0
      ensures minInterval == period * 0.9 && nextTick == now
    {
      minInterval := period * 0.9;
      nextTick := now;
    }

    /** `wake` asks to be polled again. */
    method PollTick(poll: Poll) returns (r: Option<real>, wake: bool)
      modifies this
      ensures r == if Passes(old(nextTick), poll) then poll.inner else None
      ensures nextTick == if Passes(old(nextTick), poll) then poll.now + minInterval else old(nextTick)
      ensures wake <==> poll.inner.Some? && r.None?
    {
      match poll.inner {
        case Some(instant) =>
          if nextTick <= poll.now {
            nextTick := poll.now + minInterval;
            return Some(instant), false;
          } else {
            return None, true;
          }
        case None =>
          return None, false;
      }
    }

    /** Poll by poll; `ticks` are the numbers of the polls that ticked. */
    method PollAll(polls: seq<Poll>) returns (ticks: seq<nat>)
      modifies this
      ensures ticks == Ticks(old(nextTick), minInterval, polls)
      ensures nextTick == NextTick(old(nextTick), minInterval, polls)
    {
      ticks := [];
      for i := 0 to |polls|
        invariant ticks == Ticks(old(nextTick), minInterval, polls[..i])
        invariant nextTick == NextTick(old(nextTick), minInterval, polls[..i])
      {
        assert polls[..i + 1][..i] == polls[..i];
        var r, wake := PollTick(polls[i]);
        if r.Some? {
          ticks := ticks + [i];
        }
      }
      assert polls[..|polls|] == polls;
    }
  }

  predicate Passes(nextTick: real, poll: Poll) { poll.inner.Some? && nextTick <= poll.now }

  function NextTick(start: real, minInterval: real, polls: seq<Poll>): real {
    if polls == [] then start
    else
      var before, poll := NextTick(start, minInterval, polls[..|polls| - 1]), polls[|polls| - 1];
      if Passes(before, poll) then poll.now + minInterval else before
  }

  function Ticks(start: real, minInterval: real, polls: seq<Poll>): seq<nat> {
    if polls == [] then []
    else
      var last := |polls| - 1;
      var before := Ticks(start, minInterval, polls[..last]);
      if Passes(NextTick(start, minInterval, polls[..last]), polls[last]) then before + [last] else before
  }

  /** The ticks are polls at which the inner interval ticked, in order, each once and a minimal
      interval after the one before; the next one may come a minimal interval after the last. */
  lemma {:induction false} TicksAreInnerTicks(start: real, minInterval: real, polls: seq<Poll>)
    ensures var t := Ticks(start, minInterval, polls);
      && TicksOf(t, polls, minInterval)
      && NextTick(start, minInterval, polls) == if t == [] then start else polls[t[|t| - 1]].now + minInterval
  {
    if polls != [] {
      var last := |polls| - 1;
      var t := Ticks(start, minInterval, polls[..last]);
      TicksAreInnerTicks(start, minInterval, polls[..last]);
      TicksLonger(t, polls, minInterval);
      if Passes(NextTick(start, minInterval, polls[..last]), polls[last]) { TicksAppend(t, polls, minInterval); }
    }
  }

  lemma TicksAppend(t: seq<nat>, polls: seq<Poll>, minInterval: real)
    requires polls != [] && TicksOf(t, polls, minInterval) && polls[|polls| - 1].inner.Some?
    requires t != [] ==> t[|t| - 1] < |polls| - 1 && polls[|polls| - 1].now >= polls[t[|t| - 1]].now + minInterval
    ensures TicksOf(t + [|polls| - 1], polls, minInterval)
  {
    var more := t + [|polls| - 1];
    forall i | 1 <= i < |more|
      ensures TickAfter(more, polls, minInterval, i)
    {
      if i < |t| { assert TickAfter(t, polls, minInterval, i); }
    }
  }

  ghost predicate TicksOf(t: seq<nat>, polls: seq<Poll>, minInterval: real) {
    && (forall i :: 0 <= i < |t| ==> t[i] < |polls| && polls[t[i]].inner.Some?)
    && (forall i :: 1 <= i < |t| ==> TickAfter(t, polls, minInterval, i))
  }

  ghost predicate TickAfter(t: seq<nat>, polls: seq<Poll>, minInterval: real, i: nat)
    requires 1 <= i < |t| && t[i] < |polls| && t[i - 1] < |polls|
  {
    t[i - 1] < t[i] && polls[t[i]].now >= polls[t[i - 1]].now + minInterval
  }

  lemma TicksLonger(t: seq<nat>, polls: seq<Poll>, minInterval: real)
    requires polls != [] && TicksOf(t, polls[..|polls| - 1], minInterval)
    ensures TicksOf(t, polls, minInterval)
  {
    forall i | 1 <= i < |t|
      ensures TickAfter(t, polls, minInterval, i)
    {
      assert TickAfter(t, polls[..|polls| - 1], minInterval, i);
    }
  }

  lemma OneMore(k: nat, x: real)
    ensures (k + 1) as real * x == k as real * x + x
  {
  }

  /** However the inner interval and the clock behave, ticks `i` and `j` are at least j - i
      minimal intervals apart: k ticks in a window of length L have (k - 1) * minInterval <= L. */
  lemma {:induction false} TicksApart(start: real, minInterval: real, polls: seq<Poll>, i: nat, j: nat)
    requires i <= j < |Ticks(start, minInterval, polls)|
    ensures var t := Ticks(start, minInterval, polls);
      && t[i] < |polls| && t[j] < |polls|
      && polls[t[j]].now - polls[t[i]].now >= (j - i) as real * minInterval
    decreases j
  {
    TicksAreInnerTicks(start, minInterval, polls);
    if i < j {
      TicksApart(start, minInterval, polls, i, j - 1);
      assert TickAfter(Ticks(start, minInterval, polls), polls, minInterval, j);
      OneMore(j - 1 - i, minInterval);
    }
  }

  /** Nothing is held back longer: an inner tick is dropped exactly if it comes before the start
      or within a minimal interval of the last tick that was passed on. */
  lemma {:induction false} DroppedExactly(start: real, minInterval: real, polls: seq<Poll>, poll: Poll)
    requires poll.inner.Some?
    ensures var t := Ticks(start, minInterval, polls);
      && (forall i :: 0 <= i < |t| ==> t[i] < |polls|)
      && (|polls| !in Ticks(start, minInterval, polls + [poll]) <==>
          poll.now < if t == [] then start else polls[t[|t| - 1]].now + minInterval)
  {
    TicksAreInnerTicks(start, minInterval, polls);
    assert (polls + [poll])[..|polls|] == polls;
    var t := Ticks(start, minInterval, polls);
    assert |polls| !in t;
  }
}
