/**
 * Server selection over the shared list of healthy servers
 * (src/select_server/: error.rs, round_robin_select_server.rs,
 * random_select_server.rs), and the arithmetic behind round-robin fairness.
 */
module SelectServer {
  import opened Wrappers

  datatype Error = NoOneIsAlive | PoisonedRead

  datatype Response = Response(server: string)

  /**
   * The shared `Arc<RwLock<Vec<String>>>`: the list of servers, and whether
   * the lock is poisoned (a writer panicked while holding it), in which case
   * every read fails.
   */
  class ServerList {
    var servers: seq<string>
    var poisoned: bool

    constructor (servers: seq<string>)
      ensures this.servers == servers && !poisoned
    {
      this.servers := servers;
      poisoned := false;
    }
  }

  /** A usize is 64 bits wide. */
  const USIZE_MODULUS: nat := 0x1_0000_0000_0000_0000

  /** `usize::wrapping_add(1)`. */
  function WrappingIncrement(x: nat): (r: nat)
    requires x < USIZE_MODULUS
    ensures r < USIZE_MODULUS
    ensures x + 1 < USIZE_MODULUS ==> r == x + 1
    ensures x + 1 == USIZE_MODULUS ==> r == 0
  {
    (x + 1) % USIZE_MODULUS
  }

  /** The cursor after `calls` successful selections starting from `cursor`. */
  function Advance(cursor: nat, calls: nat): (r: nat)
    requires cursor < USIZE_MODULUS
    ensures r < USIZE_MODULUS
  {
    if calls == 0 then cursor else WrappingIncrement(Advance(cursor, calls - 1))
  }

  /** Before the word maximum is reached, each selection moves the cursor by exactly one. */
  lemma {:induction false} AdvanceWithoutWrap(cursor: nat, calls: nat)
    requires cursor + calls < USIZE_MODULUS
    ensures Advance(cursor, calls) == cursor + calls
  {
    if calls > 0 {
      AdvanceWithoutWrap(cursor, calls - 1);
    }
  }

  /**
   * When the list's length divides 2^64 (a power of two), the wrap-around
   * keeps the rotation: the position after the maximum is the next one.
   */
  lemma WrapKeepsRotationForPowersOfTwo(cursor: nat, n: nat)
    requires cursor < USIZE_MODULUS && n > 0 && USIZE_MODULUS % n == 0
    ensures WrappingIncrement(cursor) % n == (cursor + 1) % n
  {
    if cursor + 1 == USIZE_MODULUS {
      ModOfMultiplePlus(n, 0, 0);
    }
  }

  /**
   * The `RoundRobinSelectServer`: selection over the shared list with a
   * cursor that persists across calls, starts at 0 and is never reset.
   */
  class RoundRobinSelectServer {
    const targetServers: ServerList
    var currentServerIndex: nat

    ghost predicate Valid()
      reads this
    {
      currentServerIndex < USIZE_MODULUS
    }

    constructor (targetServers: ServerList)
      ensures Valid()
      ensures this.targetServers == targetServers && currentServerIndex == 0
    {
      this.targetServers := targetServers;
      currentServerIndex := 0;
    }

    /**
     * A poisoned lock gives PoisonedRead and an empty list NoOneIsAlive,
     * both leaving the cursor alone; otherwise the server at the cursor
     * (modulo the list's length) is returned and the cursor advanced by one,
     * wrapping at the word maximum. The list itself is never touched.
     */
    method Execute() returns (r: Result<Response, Error>)
      requires Valid()
      modifies this
      ensures Valid()
      ensures unchanged(targetServers)
      ensures targetServers.poisoned ==>
        r == Err(PoisonedRead) && currentServerIndex == old(currentServerIndex)
      ensures !targetServers.poisoned && targetServers.servers == [] ==>
        r == Err(NoOneIsAlive) && currentServerIndex == old(currentServerIndex)
      ensures !targetServers.poisoned && targetServers.servers != [] ==>
        && r == Ok(Response(targetServers.servers[old(currentServerIndex) % |targetServers.servers|]))
        && currentServerIndex == WrappingIncrement(old(currentServerIndex))
    {
      if targetServers.poisoned {
        return Err(PoisonedRead);
      }
      var servers := targetServers.servers;
      if servers == [] {
        return Err(NoOneIsAlive);
      }
      var len := |servers|;
      var index := currentServerIndex;
      currentServerIndex := WrappingIncrement(currentServerIndex);
      index := index % len;
      r := Ok(Response(servers[index]));
    }
  }

  /** `random_range(0..n)` answers with an index below `n` whenever `n > 0`. */
  ghost predicate DrawsInRange(draw: nat -> nat) {
    forall n: nat :: n > 0 ==> draw(n) < n
  }

  /** The `RandomSelectServer`: it keeps no state besides the shared list. */
  class RandomSelectServer {
    const targetServers: ServerList

    constructor (targetServers: ServerList)
      ensures this.targetServers == targetServers
    {
      this.targetServers := targetServers;
    }

    /**
     * A poisoned lock gives PoisonedRead before emptiness is looked at, an
     * empty list NoOneIsAlive, and otherwise the server at the drawn index,
     * which is an element of the list.
     */
    function Execute(draw: nat -> nat): (r: Result<Response, Error>)
      requires DrawsInRange(draw)
      reads targetServers
      ensures r == Err(PoisonedRead) <==> targetServers.poisoned
      ensures r == Err(NoOneIsAlive) <==> !targetServers.poisoned && targetServers.servers == []
      ensures r.Ok? ==> r.value.server in targetServers.servers
      ensures r.Ok? ==> r.value.server == targetServers.servers[draw(|targetServers.servers|)]
    {
      if targetServers.poisoned then Err(PoisonedRead)
      else
        var servers := targetServers.servers;
        if servers == [] then Err(NoOneIsAlive)
        else
          var randomIndex := draw(|servers|);
          Ok(Response(servers[randomIndex]))
    }
  }

  // ---------------------------------------------------------------------
  // Round-robin fairness. Without wrap-around, the i-th of a run of
  // selections over an unchanged list of length n uses the index
  // (cursor + i) % n.
  // ---------------------------------------------------------------------

  /** `(n * q + p) % n == p` for a remainder `p < n`. */
  lemma ModOfMultiplePlus(n: nat, q: nat, p: nat)
    requires p < n
    ensures (n * q + p) % n == p && (n * q + p) / n == q
  {
    var x := n * q + p;
    var d := x / n;
    assert x == n * d + x % n;
    assert n * (q - d) == x % n - p;
    MultipleIsZeroOrLarge(n, q - d);
  }

  /** A multiple of n is 0 or at least n away from 0. */
  lemma MultipleIsZeroOrLarge(n: nat, k: int)
    ensures k >= 1 ==> n * k >= n
    ensures k <= -1 ==> n * k + n <= 0
  {
  }

  /** Taking n calls away lowers the number of complete rounds by one. */
  lemma RoundsStep(calls: nat, n: nat)
    requires 0 < n
    ensures calls < n ==> calls / n == 0
    ensures n <= calls ==> (calls - n) / n == calls / n - 1
  {
    if calls < n {
      ModOfMultiplePlus(n, 0, calls);
    } else {
      var q := (calls - n) / n;
      var r := (calls - n) % n;
      assert calls - n == n * q + r;
      assert calls == n * (q + 1) + r;
      ModOfMultiplePlus(n, q + 1, r);
    }
  }

  /** Adding `d < n` moves a remainder forward by `d`, wrapping once at most. */
  lemma ModAdd(x: nat, d: nat, n: nat)
    requires d < n
    ensures (x + d) % n == if x % n + d < n then x % n + d else x % n + d - n
  {
    var q := x / n;
    assert x == n * q + x % n;
    if x % n + d < n {
      ModOfMultiplePlus(n, q, x % n + d);
    } else {
      assert x + d == n * (q + 1) + (x % n + d - n);
      ModOfMultiplePlus(n, q + 1, x % n + d - n);
    }
  }

  /** The position picked by the i-th of a run of selections starting at `cursor`. */
  function RotationIndex(cursor: nat, i: nat, n: nat): (p: nat)
    requires n > 0
    ensures p < n
  {
    (cursor + i) % n
  }

  /** Over n consecutive cursors, each of the n positions is selected. */
  lemma RotationCoversEveryPosition(cursor: nat, n: nat, p: nat)
    requires p < n
    ensures exists i :: 0 <= i < n && RotationIndex(cursor, i, n) == p
  {
    var r := cursor % n;
    var i := if r <= p then p - r else p + n - r;
    ModAdd(cursor, i, n);
    assert RotationIndex(cursor, i, n) == p;
  }

  /** Over n consecutive cursors, no position is selected twice. */
  lemma RotationNeverRepeats(cursor: nat, n: nat, i: nat, j: nat)
    requires i < j < n
    ensures RotationIndex(cursor, i, n) != RotationIndex(cursor, j, n)
  {
    ModAdd(cursor + i, j - i, n);
    assert cursor + i + (j - i) == cursor + j;
  }

  /** How many of the `calls` selections from `cursor` pick position `p`. */
  function Hits(cursor: nat, calls: nat, n: nat, p: nat): nat
    requires n > 0
  {
    if calls == 0 then 0
    else Hits(cursor, calls - 1, n, p) + if RotationIndex(cursor, calls - 1, n) == p then 1 else 0
  }

  lemma {:induction false} HitsSplit(cursor: nat, a: nat, b: nat, n: nat, p: nat)
    requires n > 0
    ensures Hits(cursor, a + b, n, p) == Hits(cursor, a, n, p) + Hits(cursor + a, b, n, p)
  {
    if b > 0 {
      HitsSplit(cursor, a, b - 1, n, p);
      assert cursor + (a + b) - 1 == (cursor + a) + b - 1;
    }
  }

  lemma {:induction false} HitsBeforeWitness(cursor: nat, k: nat, n: nat, p: nat, w: nat)
    requires k <= n && w < n && RotationIndex(cursor, w, n) == p
    ensures Hits(cursor, k, n, p) == if w < k then 1 else 0
  {
    if k > 0 {
      HitsBeforeWitness(cursor, k - 1, n, p, w);
      if k - 1 != w {
        if k - 1 < w {
          RotationNeverRepeats(cursor, n, k - 1, w);
        } else {
          RotationNeverRepeats(cursor, n, w, k - 1);
        }
      }
    }
  }

  /** Fewer than n consecutive selections pick a position at most once, n of them exactly once. */
  lemma HitsInOneRound(cursor: nat, k: nat, n: nat, p: nat)
    requires p < n && k <= n
    ensures Hits(cursor, k, n, p) <= 1
    ensures k == n ==> Hits(cursor, k, n, p) == 1
  {
    RotationCoversEveryPosition(cursor, n, p);
    var w :| 0 <= w < n && RotationIndex(cursor, w, n) == p;
    HitsBeforeWitness(cursor, k, n, p, w);
  }

  /** Fewer than n calls make no complete round and at most one started round. */
  lemma RoundsBelowOneRound(calls: nat, n: nat)
    requires calls < n
    ensures calls / n == 0
    ensures (calls + n - 1) / n == if calls == 0 then 0 else 1
  {
    ModOfMultiplePlus(n, 0, calls);
    if calls == 0 {
      ModOfMultiplePlus(n, 0, n - 1);
    } else {
      ModOfMultiplePlus(n, 1, calls - 1);
    }
  }

  /** Taking n calls away lowers the number of started rounds by one and keeps the remainder. */
  lemma StartedRoundsStep(calls: nat, n: nat)
    requires 0 < n <= calls
    ensures (calls + n - 1) / n == (calls - 1) / n + 1
    ensures (calls - n) % n == calls % n
  {
    var q, r := (calls - 1) / n, (calls - 1) % n;
    OneMoreRound(calls - 1, n);
    ModOfMultiplePlus(n, q + 1, r);
    var q', r' := (calls - n) / n, (calls - n) % n;
    OneMoreRound(calls - n, n);
    ModOfMultiplePlus(n, q' + 1, r');
  }

  /** Adding n to x adds one to its quotient's multiple. */
  lemma OneMoreRound(x: nat, n: nat)
    requires 0 < n
    ensures x + n == n * (x / n + 1) + x % n
  {
    var q := x / n;
    assert x == n * q + x % n;
    assert n * (q + 1) == n * q + n;
  }

  /** The started rounds exceed the complete ones by at most one, and by none when n divides calls. */
  lemma StartedRoundsBound(calls: nat, n: nat)
    requires 0 < n
    ensures (calls + n - 1) / n <= calls / n + 1
    ensures calls % n == 0 ==> (calls + n - 1) / n == calls / n
  {
    var q, r := calls / n, calls % n;
    assert calls == n * q + r;
    if r == 0 {
      ModOfMultiplePlus(n, q, n - 1);
    } else {
      OneMoreRound(calls, n);
      assert calls + n - 1 == n * (q + 1) + (r - 1);
      ModOfMultiplePlus(n, q + 1, r - 1);
    }
  }

  /**
   * Round-robin balance: over any `calls` consecutive selections without
   * wrap-around on a list of `n` servers, each position is picked
   * floor(calls / n) or ceil(calls / n) times, so exactly calls / n times
   * when n divides calls.
   */
  lemma {:induction false} RoundRobinIsBalanced(cursor: nat, calls: nat, n: nat, p: nat)
    requires p < n
    ensures calls / n <= Hits(cursor, calls, n, p) <= (calls + n - 1) / n
    ensures calls % n == 0 ==> Hits(cursor, calls, n, p) == calls / n
    decreases calls
  {
    StartedRoundsBound(calls, n);
    if calls < n {
      HitsInOneRound(cursor, calls, n, p);
      RoundsBelowOneRound(calls, n);
    } else {
      var rest := calls - n;
      HitsSplit(cursor, n, rest, n, p);
      HitsInOneRound(cursor, n, n, p);
      RoundRobinIsBalanced(cursor + n, rest, n, p);
      RoundsStep(calls, n);
      StartedRoundsStep(calls, n);
      assert rest + n - 1 == calls - 1;
    }
  }

  /** Hence the counts of any two positions differ by at most one. */
  lemma RoundRobinCountsDifferByAtMostOne(cursor: nat, calls: nat, n: nat, p: nat, p': nat)
    requires p < n && p' < n
    ensures Hits(cursor, calls, n, p) <= Hits(cursor, calls, n, p') + 1
  {
    RoundRobinIsBalanced(cursor, calls, n, p);
    RoundRobinIsBalanced(cursor, calls, n, p');
    StartedRoundsBound(calls, n);
  }
}
