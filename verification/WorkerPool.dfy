/** The worker threads of the two harnesses that share work among them. */
module WorkerPool {

  datatype Worker = Unspawned | Ready | Holding(index: nat) | Exited

  /** Some worker is working on item `i`. */
  ghost predicate Held(ws: seq<Worker>, i: nat) {
    exists w :: 0 <= w < |ws| && ws[w] == Holding(i)
  }

  // ---- a measure every step of a worker lowers ----

  function Weight(w: Worker): nat {
    match w
    case Unspawned => 2
    case Ready => 1
    case Holding(_) => 3
    case Exited => 0
  }

  function TotalWeight(ws: seq<Worker>): nat {
    if ws == [] then 0 else Weight(ws[0]) + TotalWeight(ws[1..])
  }

  lemma {:induction false} WeightUpdate(ws: seq<Worker>, w: nat, to: Worker)
    requires w < |ws|
    ensures TotalWeight(ws[w := to]) == TotalWeight(ws) - Weight(ws[w]) + Weight(to)
  {
    if w > 0 {
      WeightUpdate(ws[1..], w - 1, to);
      assert ws[w := to][1..] == ws[1..][w - 1 := to];
    } else {
      assert ws[w := to][1..] == ws[1..];
    }
  }

  lemma {:induction false} InitialWeight(n: nat)
    ensures TotalWeight(seq(n, _ => Unspawned)) == 2 * n
  {
    if n > 0 {
      InitialWeight(n - 1);
      assert seq(n, _ => Unspawned)[1..] == seq(n - 1, _ => Unspawned);
    }
  }

  /** The items being worked on are at most as many as the workers. */
  ghost function HeldItems(ws: seq<Worker>): set<nat> {
    set w | 0 <= w < |ws| && ws[w].Holding? :: ws[w].index
  }

  lemma {:induction false} HeldAtMost(ws: seq<Worker>)
    ensures |HeldItems(ws)| <= |ws|
  {
    if ws != [] {
      var init, last := ws[..|ws| - 1], ws[|ws| - 1];
      HeldAtMost(init);
      var one := if last.Holding? then {last.index} else {};
      assert HeldItems(ws) == HeldItems(init) + one;
    }
  }
}
