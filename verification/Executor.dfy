/** The host agent backend: the lifecycle of a process handle, the lock-free state
    transition and the global agent budget (internal/executor). */
module Executor {
  import opened Common

  datatype BackendState = Creating | Running | Streaming | Stopping | Stopped | Failed

  predicate Terminal(s: BackendState) {
    s == Stopped || s == Failed
  }

  /** The table of allowed transitions. */
  predicate CanTransition(from: BackendState, to: BackendState) {
    match from
    case Creating => to == Running || to == Failed
    case Running => to == Streaming || to == Stopping || to == Stopped || to == Failed
    case Streaming => to == Stopping || to == Stopped || to == Failed
    case Stopping => to == Stopped
    case Stopped => false
    case Failed => false
  }

  /** How many transitions can still follow. */
  function Rank(s: BackendState): nat {
    match s
    case Creating => 4
    case Running => 3
    case Streaming => 2
    case Stopping => 1
    case Stopped => 0
    case Failed => 0
  }

  // ----- histories of one state cell -----

  ghost predicate Edge(trace: seq<BackendState>, i: nat) {
    i + 1 < |trace| ==> CanTransition(trace[i], trace[i + 1])
  }

  /** Every value the cell has held, in order. */
  ghost predicate Path(trace: seq<BackendState>) {
    trace != [] && forall i: nat :: i < |trace| ==> Edge(trace, i)
  }

  lemma PathAppend(trace: seq<BackendState>, to: BackendState)
    requires Path(trace) && CanTransition(trace[|trace| - 1], to)
    ensures Path(trace + [to])
  {
    forall i: nat | i < |trace| + 1 ensures Edge(trace + [to], i) {
      assert i < |trace| ==> Edge(trace, i);
    }
  }

  /** Each move costs rank, so no state is ever entered twice. */
  lemma {:induction false} PathFalls(trace: seq<BackendState>, i: nat, j: nat)
    requires Path(trace) && i <= j < |trace|
    ensures Rank(trace[j]) + (j - i) <= Rank(trace[i])
    decreases j
  {
    if i < j {
      PathFalls(trace, i, j - 1);
      assert Edge(trace, j - 1);
    }
  }

  /** A terminal state is the last one, and a history has at most five. */
  lemma TerminalIsLast(trace: seq<BackendState>, i: nat)
    requires Path(trace) && i < |trace|
    ensures Terminal(trace[i]) ==> i == |trace| - 1
    ensures |trace| <= 5
  {
    PathFalls(trace, i, |trace| - 1);
    PathFalls(trace, 0, |trace| - 1);
  }

  /** The atomic state word of a handle. Other goroutines move it too: `others`
      are the targets they still try to reach, in any number and order, and
      Interfere lets any part of them run. */
  class StateCell {
    var value: BackendState
    var others: seq<BackendState>
    ghost var trace: seq<BackendState>

    ghost predicate Valid() reads this {
      Path(trace) && trace[|trace| - 1] == value
    }

    constructor (others: seq<BackendState>)
      ensures Valid() && value == Creating && trace == [Creating]
    {
      value, this.others, trace := Creating, others, [Creating];
    }

    method CompareAndSwap(from: BackendState, to: BackendState) returns (swapped: bool)
      requires Valid() && CanTransition(from, to)
      modifies `value, `trace
      ensures Valid() && swapped == (old(value) == from)
      ensures value == (if swapped then to else old(value))
      ensures trace == (if swapped then old(trace) + [to] else old(trace))
    {
      swapped := value == from;
      if swapped {
        PathAppend(trace, to);
        value, trace := to, trace + [to];
      }
    }

    /** Any number of steps by other goroutines. */
    method Interfere()
      requires Valid()
      modifies this
      ensures Valid() && old(trace) <= trace && Rank(value) <= Rank(old(value))
      ensures value != old(value) ==> Rank(value) < Rank(old(value))
    {
      var going: bool := *;
      while going && others != []
        invariant Valid() && old(trace) <= trace
        decreases |others|
      {
        var to := others[0];
        others := others[1..];
        if CanTransition(value, to) {
          PathAppend(trace, to);
          value, trace := to, trace + [to];
        }
        going := *;
      }
      PathFalls(trace, |old(trace)| - 1, |trace| - 1);
    }

    /** Validate and apply a change by compare-and-swap, retrying while other
        goroutines get in between. It makes at most one move, its own, from a
        state that allows it; it gives up only in a state that does not; and it
        retries no more often than the state had moves left. */
    method Transition(to: BackendState) returns (applied: bool, retries: nat)
      requires Valid()
      modifies this
      ensures Valid() && old(trace) <= trace
      ensures applied ==> value == to && |trace| > |old(trace)| && CanTransition(trace[|trace| - 2], to)
      ensures !applied ==> !CanTransition(value, to)
      ensures retries <= Rank(old(value))
    {
      retries := 0;
      while true
        invariant Valid() && old(trace) <= trace
        invariant retries + Rank(value) <= Rank(old(value))
        decreases Rank(value)
      {
        Interfere();
        var from := value;
        if !CanTransition(from, to) {
          return false, retries;
        }
        Interfere();
        var swapped := CompareAndSwap(from, to);
        if swapped {
          return true, retries;
        }
        retries := retries + 1;
      }
    }
  }
}
