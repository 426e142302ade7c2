/**
 * The lifecycle reference counter that `DBJ_COMPONENT_UNLOADER_IMPLEMENTATION`
 * expands to: a counter the load hook increments, the unload hook
 * decrements, and `dbj_component_can_unload_now` compares with zero.
 */
module ComponentUnloader {

  /** A firing of the component's constructor (load) or destructor (unload) hook. */
  datatype Hook = Ctor | Dtor

  /** How many times `h` fired in `history`. */
  function Count(history: seq<Hook>, h: Hook): nat
  {
    if history == [] then 0
    else Count(history[..|history| - 1], h) + (if history[|history| - 1] == h then 1 else 0)
  }

  /** Every firing is either a load or an unload. */
  lemma {:induction false} CountTotal(history: seq<Hook>)
    ensures Count(history, Ctor) + Count(history, Dtor) == |history|
  {
    if history != [] {
      CountTotal(history[..|history| - 1]);
    }
  }

  /** Loads not yet matched by an unload. */
  function Balance(history: seq<Hook>): int
  {
    Count(history, Ctor) - Count(history, Dtor)
  }

  /** Each unload hook fires while at least one load is unmatched, as `component_dtor` does for a mapped module. */
  ghost predicate UnloadsFollowLoads(history: seq<Hook>)
  {
    forall i :: 0 <= i < |history| && history[i] == Dtor ==> Balance(history[..i]) > 0
  }

  /** Appending one firing changes the balance by exactly one. */
  lemma BalanceSnoc(history: seq<Hook>, h: Hook)
    ensures Balance(history + [h]) == Balance(history) + (if h == Ctor then 1 else -1)
  {
    assert (history + [h])[..|history|] == history;
  }

  /** When every unload follows an unmatched load, the counter is never negative at any point of the history. */
  lemma {:induction false} NeverNegative(history: seq<Hook>)
    requires UnloadsFollowLoads(history)
    ensures forall k :: 0 <= k <= |history| ==> Balance(history[..k]) >= 0
  {
    if history != [] {
      var n := |history| - 1;
      var front := history[..n];
      forall i | 0 <= i < |front| && front[i] == Dtor
        ensures Balance(front[..i]) > 0
      {
        assert front[..i] == history[..i];
      }
      NeverNegative(front);
      assert history == front + [history[n]];
      BalanceSnoc(front, history[n]);
      forall k | 0 <= k <= |history|
        ensures Balance(history[..k]) >= 0
      {
        if k <= n {
          assert history[..k] == front[..k];
        } else {
          assert front[..n] == front;
          assert history[..k] == history;
        }
      }
    }
  }

  function Repeat(h: Hook, n: nat): seq<Hook>
  {
    seq(n, _ => h)
  }

  /** Counting hook firings distributes over concatenated histories. */
  lemma {:induction false} CountAppend(a: seq<Hook>, b: seq<Hook>, h: Hook)
    ensures Count(a + b, h) == Count(a, h) + Count(b, h)
    decreases |b|
  {
    if b == [] {
      assert a + b == a;
    } else {
      var b' := b[..|b| - 1];
      assert (a + b)[..|a + b| - 1] == a + b';
      CountAppend(a, b', h);
    }
  }

  /** `n` firings of one hook count `n` for it and none for the other. */
  lemma {:induction false} CountRepeat(h: Hook, n: nat, g: Hook)
    ensures Count(Repeat(h, n), g) == if g == h then n else 0
  {
    if n > 0 {
      assert Repeat(h, n)[..n - 1] == Repeat(h, n - 1);
      CountRepeat(h, n - 1, g);
    }
  }

  /** After `n` loads followed by `m` unloads the balance is `n - m`. */
  lemma LoadsThenUnloads(n: nat, m: nat)
    ensures Balance(Repeat(Ctor, n) + Repeat(Dtor, m)) == n - m
  {
    CountAppend(Repeat(Ctor, n), Repeat(Dtor, m), Ctor);
    CountAppend(Repeat(Ctor, n), Repeat(Dtor, m), Dtor);
    CountRepeat(Ctor, n, Ctor);
    CountRepeat(Ctor, n, Dtor);
    CountRepeat(Dtor, m, Ctor);
    CountRepeat(Dtor, m, Dtor);
  }

  /**
   * The module's `component_counter_` together with the history of hook
   * firings it has seen. The counter is always the number of loads minus
   * the number of unloads, and every unload so far followed an unmatched load.
   */
  class Unloader {
    var counter: int
    ghost var history: seq<Hook>

    ghost predicate Valid()
      reads this
    {
      counter == Balance(history) && UnloadsFollowLoads(history)
    }

    /** Static initialisation `component_counter_ = 0`. */
    constructor ()
      ensures Valid() && counter == 0 && history == []
      ensures counter >= 0
    {
      counter := 0;
      history := [];
    }

    /** `component_ctor`: the load hook adds exactly one. */
    method OnLoad()
      requires Valid()
      modifies this
      ensures Valid() && counter >= 0
      ensures counter == old(counter) + 1 && history == old(history) + [Ctor]
    {
      BalanceSnoc(history, Ctor);
      ghost var before := history;
      counter := counter + 1;
      history := history + [Ctor];
      forall i | 0 <= i < |history| && history[i] == Dtor
        ensures Balance(history[..i]) > 0
      {
        assert history[..i] == before[..i];
      }
      NeverNegative(history);
      assert history[..|history|] == history;
    }

    /**
     * `component_dtor`: the unload hook subtracts exactly one. The hook itself
     * does not check for underflow; the platform fires it only for a mapped
     * module, so a caller finds the counter positive.
     */
    method OnUnload()
      requires Valid() && counter > 0
      modifies this
      ensures Valid() && counter >= 0
      ensures counter == old(counter) - 1 && history == old(history) + [Dtor]
    {
      BalanceSnoc(history, Dtor);
      ghost var before := history;
      counter := counter - 1;
      history := history + [Dtor];
      forall i | 0 <= i < |history| && history[i] == Dtor
        ensures Balance(history[..i]) > 0
      {
        if i < |before| {
          assert history[..i] == before[..i];
        } else {
          assert history[..i] == before;
        }
      }
      NeverNegative(history);
      assert history[..|history|] == history;
    }

    /**
     * `dbj_component_can_unload_now`: a read-only query, true exactly when
     * every load so far has been matched by an unload.
     */
    method CanUnloadNow() returns (b: bool)
      requires Valid()
      ensures b <==> counter == 0
      ensures b <==> Count(history, Ctor) == Count(history, Dtor)
    {
      b := counter == 0;
    }
  }
}
