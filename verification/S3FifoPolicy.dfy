/** The indexed S3-FIFO controller: queues plus a tier map, an owner map, owner
    counters, and a ghost queue kept as two mutually inverse maps keyed by
    generation. Every method is proved to act on the indexed state exactly as the
    index-free functions of `S3Fifo` act on the model it represents. */
module S3FifoPolicy {
  import opened Integers
  import opened S3Fifo
  import opened Sequences
  import opened Wrappers

  datatype LiveTier = LiveSmall | LiveMain

  // ---- what each index stands for ----

  /** `lookup` (key to generation) and `order` (generation to key) are inverse. */
  ghost predicate GhostIndex<K(!new)>(order: map<nat, K>, lookup: map<K, nat>, generation: nat) {
    && |lookup| == |order|
    && (forall k :: k in lookup ==> lookup[k] in order && order[lookup[k]] == k)
    && (forall g :: g in order ==> g <= generation && order[g] in lookup && lookup[order[g]] == g)
  }

  lemma HasMinimum(s: set<nat>) returns (m: nat)
    requires s != {}
    ensures m in s && forall g :: g in s ==> m <= g
  {
    var x :| x in s;
    m := x;
    if s - {x} != {} {
      var rest := HasMinimum(s - {x});
      if rest < x { m := rest; }
    }
    assert forall g :: g in s ==> g == x || g in s - {x};
  }

  ghost function Oldest<K>(order: map<nat, K>): (m: nat)
    requires order != map[]
    ensures m in order && forall g :: g in order ==> m <= g
  {
    assert order.Keys != {};
    assert exists m :: m in order.Keys && forall g :: g in order.Keys ==> m <= g by {
      var m := HasMinimum(order.Keys);
    }
    var m :| m in order.Keys && forall g :: g in order.Keys ==> m <= g;
    m
  }

  /** The ghost queue, oldest first: the keys by rising generation. */
  ghost function ByGeneration<K>(order: map<nat, K>): seq<K>
    decreases |order|
  {
    if order == map[] then []
    else
      var m := Oldest(order);
      assert (order - {m}).Keys == order.Keys - {m};
      [order[m]] + ByGeneration(order - {m})
  }

  ghost predicate TierIndex<K(!new)>(tiers: map<K, LiveTier>, small: seq<K>, main: seq<K>) {
    && Distinct(small) && Distinct(main)
    && (forall k :: k in tiers <==> k in small || k in main)
    && (forall k :: k in tiers ==> (tiers[k] == LiveSmall <==> k in small) && (tiers[k] == LiveMain <==> k in main))
  }

  ghost predicate OwnerCounters<K>(counts: map<string, nat>, owner: map<K, string>) {
    && (forall o :: o in counts <==> Owned(owner, o) > 0)
    && (forall o :: o in counts ==> counts[o] == Owned(owner, o))
  }

  // ---- facts about the ghost index ----

  lemma SomeOldest<K>(order: map<nat, K>) returns (m: nat)
    requires |order| > 0
    ensures m in order && forall g :: g in order ==> m <= g
  {
    m := Oldest(order);
  }

  lemma OldestFirst<K>(order: map<nat, K>, m: nat)
    requires m in order && forall g :: g in order ==> m <= g
    ensures ByGeneration(order) == [order[m]] + ByGeneration(order - {m})
  {
    assert m == Oldest(order);
  }

  lemma {:induction false} ByGenerationMembers<K(!new)>(order: map<nat, K>)
    ensures |ByGeneration(order)| == |order|
    ensures forall x :: x in ByGeneration(order) <==> exists g :: g in order && order[g] == x
    decreases |order|
  {
    if order != map[] {
      var m := Oldest(order);
      var rest := order - {m};
      assert rest.Keys == order.Keys - {m};
      ByGenerationMembers(rest);
      forall x ensures x in ByGeneration(order) <==> exists g :: g in order && order[g] == x {
        if g :| g in order && order[g] == x { assert g == m || (g in rest && rest[g] == x); }
        if g :| g in rest && rest[g] == x { assert g in order && order[g] == x; }
      }
    }
  }

  /** A key pushed under a fresh, higher generation goes to the back. */
  lemma {:induction false} ByGenerationPush<K(!new)>(order: map<nat, K>, g: nat, k: K)
    requires forall h :: h in order ==> h < g
    ensures ByGeneration(order[g := k]) == ByGeneration(order) + [k]
    decreases |order|
  {
    hide ByGeneration, Oldest;
    var all := order[g := k];
    if order == map[] {
      OldestFirst(all, g);
      assert all - {g} == map[];
      NoGenerations<K>();
    } else {
      assert |order.Keys| > 0 && |order| == |order.Keys|;
      var m := SomeOldest(order);
      OldestFirst(order, m);
      OldestFirst(all, m);
      assert (order - {m}).Keys == order.Keys - {m};
      ByGenerationPush(order - {m}, g, k);
      assert all - {m} == (order - {m})[g := k];
    }
  }

  lemma PushGhostIs<K>(c: Config, p: Policy<K>, k: K)
    ensures var full := p.generation >= U64_MAX;
      PushGhost(c, p, k) == p.(
        ghosts := Newest(Without(if full then [] else p.ghosts, k) + [k], c.ghosts),
        generation := if full then 1 else p.generation + 1)
  {
  }

  lemma NewestAll<T>(s: seq<T>, n: nat)
    ensures |s| <= n ==> Newest(s, n) == s
  {
  }

  lemma NewestPop<T>(s: seq<T>, n: nat)
    requires 0 < n <= |s|
    ensures Newest(s, n) != [] && Newest(s, n)[1..] == Newest(s, n - 1)
  {
    assert s[|s| - n..][1..] == s[|s| - n + 1..];
  }

  lemma NoGenerations<K>()
    ensures ByGeneration<K>(map[]) == []
  {
  }

  /** Removing a generation takes its key out of the queue and keeps the rest. */
  lemma {:induction false} ByGenerationRemove<K(!new)>(order: map<nat, K>, g: nat)
    requires g in order && forall a, b :: a in order && b in order && order[a] == order[b] ==> a == b
    ensures ByGeneration(order - {g}) == Without(ByGeneration(order), order[g])
    decreases |order|
  {
    hide ByGeneration, Oldest;
    assert |order.Keys| > 0 && |order| == |order.Keys|;
    var m := SomeOldest(order);
    OldestFirst(order, m);
    if m != g {
      assert (order - {m}).Keys == order.Keys - {m};
      ByGenerationRemove(order - {m}, g);
      OldestFirst(order - {g}, m);
      assert order - {g} - {m} == order - {m} - {g};
    }
  }

  lemma GhostPop<K(!new)>(order: map<nat, K>, lookup: map<K, nat>, generation: nat, g: nat)
    requires GhostIndex(order, lookup, generation) && g in order
    ensures GhostIndex(order - {g}, lookup - {order[g]}, generation)
    ensures |lookup - {order[g]}| == |lookup| - 1
  {
    assert (order - {g}).Keys == order.Keys - {g};
    assert (lookup - {order[g]}).Keys == lookup.Keys - {order[g]};
  }

  lemma GhostMembers<K(!new)>(order: map<nat, K>, lookup: map<K, nat>, generation: nat)
    requires GhostIndex(order, lookup, generation)
    ensures |ByGeneration(order)| == |lookup|
    ensures forall k :: k in lookup <==> k in ByGeneration(order)
  {
    ByGenerationMembers(order);
    forall k | k in lookup ensures k in ByGeneration(order) { assert order[lookup[k]] == k; }
  }

  lemma {:induction false} WithoutAbsent<K(!new)>(s: seq<K>, k: K)
    requires k !in s
    ensures Without(s, k) == s
  {
    if s != [] { WithoutAbsent(s[1..], k); }
  }

  // ---- facts about the tier index ----

  lemma TierPopSmall<K(!new)>(tiers: map<K, LiveTier>, small: seq<K>, main: seq<K>)
    requires TierIndex(tiers, small, main) && small != []
    ensures TierIndex(tiers - {small[0]}, small[1..], main)
  {
    assert small == [small[0]] + small[1..];
  }

  lemma TierPopMain<K(!new)>(tiers: map<K, LiveTier>, small: seq<K>, main: seq<K>)
    requires TierIndex(tiers, small, main) && main != []
    ensures TierIndex(tiers - {main[0]}, small, main[1..])
  {
    assert main == [main[0]] + main[1..];
  }

  lemma TierRemove<K(!new)>(tiers: map<K, LiveTier>, small: seq<K>, main: seq<K>, k: K)
    requires TierIndex(tiers, small, main)
    ensures TierIndex(tiers - {k}, Without(small, k), Without(main, k))
  {
    WithoutSpec(small, k);
    WithoutSpec(main, k);
  }

  lemma TierAddSmall<K(!new)>(tiers: map<K, LiveTier>, small: seq<K>, main: seq<K>, k: K)
    requires TierIndex(tiers, small, main) && k !in tiers
    ensures TierIndex(tiers[k := LiveSmall], small + [k], main)
  {
    assert forall x :: x in small + [k] <==> x in small || x == k;
    DistinctSplit(small, [k]);
  }

  lemma TierAddMain<K(!new)>(tiers: map<K, LiveTier>, small: seq<K>, main: seq<K>, k: K)
    requires TierIndex(tiers, small, main) && k !in tiers
    ensures TierIndex(tiers[k := LiveMain], small, main + [k])
  {
    assert forall x :: x in main + [k] <==> x in main || x == k;
    DistinctSplit(main, [k]);
  }

  /** A live key moved to the back of the main queue. */
  lemma TierToMain<K(!new)>(tiers: map<K, LiveTier>, small: seq<K>, main: seq<K>, k: K)
    requires TierIndex(tiers, small, main) && k in tiers
    ensures TierIndex(tiers[k := LiveMain], Without(small, k), Without(main, k) + [k])
    ensures tiers[k] == LiveMain ==> tiers[k := LiveMain] == tiers && Without(small, k) == small
    ensures tiers[k] == LiveSmall ==> Without(main, k) == main
  {
    TierRemove(tiers, small, main, k);
    TierAddMain(tiers - {k}, Without(small, k), Without(main, k), k);
    assert (tiers - {k})[k := LiveMain] == tiers[k := LiveMain];
    if k !in small { WithoutAbsent(small, k); }
    if k !in main { WithoutAbsent(main, k); }
  }

  // ---- facts about the owner counters ----

  lemma CountersAdd<K>(counts: map<string, nat>, owner: map<K, string>, k: K, o: string)
    requires OwnerCounters(counts, owner) && k !in owner
    ensures OwnerCounters(counts[o := (if o in counts then counts[o] else 0) + 1], owner[k := o])
  {
    forall x ensures Owned(owner[k := o], x) == Owned(owner, x) + (if o == x then 1 else 0) {
      OwnedAdd(owner, k, o, x);
    }
  }

  lemma CountersRemove<K>(counts: map<string, nat>, owner: map<K, string>, k: K)
    requires OwnerCounters(counts, owner) && k in owner
    ensures owner[k] in counts && counts[owner[k]] >= 1
    ensures var o := owner[k];
            OwnerCounters(if counts[o] > 1 then counts[o := counts[o] - 1] else counts - {o}, owner - {k})
  {
    var o := owner[k];
    forall x ensures Owned(owner - {k}, x) == Owned(owner, x) - (if o == x then 1 else 0) { OwnedRemove(owner, k, x); }
    assert o in counts by {
      assert k in set y | y in owner && owner[y] == o;
    }
  }

  /** The tier map and the counters answer what the queues and owners would. */
  lemma IndexesAnswer<K(!new)>(tiers: map<K, LiveTier>, small: seq<K>, main: seq<K>,
                               counts: map<string, nat>, owner: map<K, string>, o: string, k: K)
    requires TierIndex(tiers, small, main) && OwnerCounters(counts, owner)
    ensures k in main <==> k in tiers && tiers[k] == LiveMain
    ensures k in small <==> k in tiers && tiers[k] == LiveSmall
    ensures Owned(owner, o) == if o in counts then counts[o] else 0
  {
  }

  // ---- the controller ----

  class Controller<K(==, !new)> {
    const cfg: Config
    var small: seq<K>
    var main: seq<K>
    var ghostOrder: map<nat, K>
    var ghostLookup: map<K, nat>
    var generation: nat
    var liveTiers: map<K, LiveTier>
    var liveOwners: map<K, string>
    var ownerCounts: map<string, nat>
    var recent: seq<Signal>
    var fallback: Option<Reason>
    var totals: Totals

    /** The index-free policy this object stands for. */
    ghost function Model(): Policy<K>
      reads this
    {
      Policy(small, main, liveOwners, ByGeneration(ghostOrder), generation, recent, fallback, totals)
    }

    /** The indexes agree with the queues; capacities may be exceeded in passing. */
    ghost predicate Indexed()
      reads this
    {
      && GhostIndex(ghostOrder, ghostLookup, generation)
      && TierIndex(liveTiers, small, main)
      && OwnerCounters(ownerCounts, liveOwners)
      && liveOwners.Keys == liveTiers.Keys
    }

    ghost predicate Valid()
      reads this
    {
      Normal(cfg) && Indexed() && Inv(cfg, Model())
    }

    constructor (requested: Config)
      ensures Valid() && cfg == Normalize(requested) && Model() == New()
    {
      cfg := Normalize(requested);
      small, main := [], [];
      ghostOrder, ghostLookup, generation := map[], map[], 0;
      liveTiers, liveOwners, ownerCounts := map[], map[], map[];
      recent, fallback, totals := [], None, Totals(0, 0, 0, 0);
      new;
      forall o ensures Owned(liveOwners, o) == 0 { OwnedAtMost(liveOwners, o); }
    }

    method RemoveGhost(key: K)
      requires GhostIndex(ghostOrder, ghostLookup, generation)
      modifies this`ghostOrder, this`ghostLookup
      ensures GhostIndex(ghostOrder, ghostLookup, generation) && key !in ghostLookup
      ensures ByGeneration(ghostOrder) == Without(old(ByGeneration(ghostOrder)), key)
      ensures key !in old(ghostLookup) ==> ghostOrder == old(ghostOrder) && ghostLookup == old(ghostLookup)
    {
      GhostMembers(ghostOrder, ghostLookup, generation);
      hide ByGeneration, Without;
      if key in ghostLookup {
        ByGenerationRemove(ghostOrder, ghostLookup[key]);
        GhostPop(ghostOrder, ghostLookup, generation, ghostLookup[key]);
        ghostOrder := ghostOrder - {ghostLookup[key]};
        ghostLookup := ghostLookup - {key};
      } else {
        WithoutAbsent(ByGeneration(ghostOrder), key);
      }
    }

    /** `pop_first` on the generation map, and the same key out of the lookup. */
    method PopOldestGhost()
      requires GhostIndex(ghostOrder, ghostLookup, generation) && |ghostLookup| > 0
      modifies this`ghostOrder, this`ghostLookup
      ensures GhostIndex(ghostOrder, ghostLookup, generation) && |ghostLookup| == old(|ghostLookup|) - 1
      ensures old(ByGeneration(ghostOrder)) != [] && ByGeneration(ghostOrder) == old(ByGeneration(ghostOrder))[1..]
    {
      ghost var oldest := SomeOldest(ghostOrder);
      var first :| first in ghostOrder && forall g :: g in ghostOrder ==> first <= g;
      OldestFirst(ghostOrder, first);
      var popped := ghostOrder[first];
      GhostPop(ghostOrder, ghostLookup, generation, first);
      ghostOrder := ghostOrder - {first};
      ghostLookup := ghostLookup - {popped};
    }

    method TrimGhosts()
      requires GhostIndex(ghostOrder, ghostLookup, generation)
      modifies this`ghostOrder, this`ghostLookup
      ensures GhostIndex(ghostOrder, ghostLookup, generation)
      ensures ByGeneration(ghostOrder) == Newest(old(ByGeneration(ghostOrder)), cfg.ghosts)
    {
      GhostMembers(ghostOrder, ghostLookup, generation);
      ghost var before := ByGeneration(ghostOrder);
      hide GhostIndex, ByGeneration, Newest;
      NewestAll(before, |ghostLookup|);
      NewestAll(before, cfg.ghosts);
      while |ghostLookup| > cfg.ghosts
        invariant GhostIndex(ghostOrder, ghostLookup, generation)
        invariant |ghostLookup| <= |before| && (|ghostLookup| >= cfg.ghosts || |ghostLookup| == |before|)
        invariant ByGeneration(ghostOrder) == Newest(before, |ghostLookup|)
        decreases |ghostLookup|
      {
        NewestPop(before, |ghostLookup|);
        PopOldestGhost();
      }
    }

    /** A key already a ghost is moved to the new generation. */
    method InsertGhost(key: K)
      requires GhostIndex(ghostOrder, ghostLookup, generation)
      modifies this`ghostOrder, this`ghostLookup, this`generation
      ensures GhostIndex(ghostOrder, ghostLookup, generation) && generation == old(generation) + 1
      ensures ByGeneration(ghostOrder) == Without(old(ByGeneration(ghostOrder)), key) + [key]
    {
      RemoveGhost(key);
      generation := generation + 1;
      ByGenerationPush(ghostOrder, generation, key);
      ghostLookup := ghostLookup[key := generation];
      ghostOrder := ghostOrder[generation := key];
    }

    method PushGhostKey(key: K)
      requires GhostIndex(ghostOrder, ghostLookup, generation)
      modifies this`ghostOrder, this`ghostLookup, this`generation
      ensures GhostIndex(ghostOrder, ghostLookup, generation)
      ensures Model() == PushGhost(cfg, old(Model()), key)
    {
      hide GhostIndex, Without, ByGeneration, Newest, PushGhost;
      PushGhostIs(cfg, Model(), key);
      RestartGenerations();
      InsertGhost(key);
      TrimGhosts();
    }

    /** When the next generation would overflow, the ghost queue is emptied. */
    method RestartGenerations()
      requires GhostIndex(ghostOrder, ghostLookup, generation)
      modifies this`ghostOrder, this`ghostLookup, this`generation
      ensures GhostIndex(ghostOrder, ghostLookup, generation)
      ensures if old(generation) >= U64_MAX then generation == 0 && ByGeneration(ghostOrder) == []
              else generation == old(generation) && ByGeneration(ghostOrder) == old(ByGeneration(ghostOrder))
    {
      if generation >= U64_MAX {
        generation, ghostOrder, ghostLookup := 0, map[], map[];
      }
    }

    method IncrementOwner(owner: string)
      modifies this`ownerCounts
      ensures var counts := old(ownerCounts);
        ownerCounts == counts[owner := (if owner in counts then counts[owner] else 0) + 1]
    {
      if owner in ownerCounts {
        ownerCounts := ownerCounts[owner := ownerCounts[owner] + 1];
      } else {
        ownerCounts := ownerCounts[owner := 1];
      }
    }

    method RemoveOwnerForKey(key: K)
      requires OwnerCounters(ownerCounts, liveOwners)
      modifies this`ownerCounts, this`liveOwners
      ensures OwnerCounters(ownerCounts, liveOwners) && liveOwners == old(liveOwners) - {key}
    {
      if key in liveOwners {
        CountersRemove(ownerCounts, liveOwners, key);
        var owner := liveOwners[key];
        liveOwners := liveOwners - {key};
        if ownerCounts[owner] > 1 {
          ownerCounts := ownerCounts[owner := ownerCounts[owner] - 1];
        } else {
          ownerCounts := ownerCounts - {owner};
        }
      }
    }

    method PopSmallFront() returns (key: K)
      requires Indexed() && small != []
      modifies this`small, this`liveTiers, this`ownerCounts, this`liveOwners
      ensures Indexed() && key == old(small)[0]
      ensures small == old(small)[1..] && liveOwners == old(liveOwners) - {key}
    {
      key := small[0];
      TierPopSmall(liveTiers, small, main);
      small := small[1..];
      liveTiers := liveTiers - {key};
      RemoveOwnerForKey(key);
    }

    method PopMainFront() returns (key: K)
      requires Indexed() && main != []
      modifies this`main, this`liveTiers, this`ownerCounts, this`liveOwners
      ensures Indexed() && key == old(main)[0]
      ensures main == old(main)[1..] && liveOwners == old(liveOwners) - {key}
    {
      key := main[0];
      TierPopMain(liveTiers, small, main);
      main := main[1..];
      liveTiers := liveTiers - {key};
      RemoveOwnerForKey(key);
    }

    method EvictSmallFrontToGhost()
      requires Indexed() && small != []
      modifies this
      ensures Indexed() && Model() == EvictSmall(cfg, old(Model()))
    {
      hide TierIndex, GhostIndex, OwnerCounters, ByGeneration, PushGhost;
      var key := PopSmallFront();
      PushGhostKey(key);
    }

    method EvictMainFrontToGhost()
      requires Indexed() && main != []
      modifies this
      ensures Indexed() && Model() == EvictMain(cfg, old(Model()))
    {
      hide TierIndex, GhostIndex, OwnerCounters, ByGeneration, PushGhost;
      var key := PopMainFront();
      PushGhostKey(key);
    }

    method EnforceSmallCapacity()
      requires Indexed()
      modifies this
      ensures Indexed() && Model() == EnforceSmall(cfg, old(Model()))
    {
      while |small| > cfg.small
        invariant Indexed() && EnforceSmall(cfg, Model()) == EnforceSmall(cfg, old(Model()))
        decreases |small|
      {
        EvictSmallFrontToGhost();
      }
    }

    method EnforceMainCapacity()
      requires Indexed() && cfg.small <= cfg.live
      modifies this
      ensures Indexed() && Model() == EnforceMain(cfg, old(Model()))
    {
      while |main| > cfg.live - cfg.small
        invariant Indexed() && EnforceMain(cfg, Model()) == EnforceMain(cfg, old(Model()))
        decreases |main|
      {
        EvictMainFrontToGhost();
      }
    }

    method EnforceLiveCapacity()
      requires Indexed()
      modifies this
      ensures Indexed() && Model() == EnforceLive(cfg, old(Model()))
    {
      while |small| + |main| > cfg.live
        invariant Indexed() && EnforceLive(cfg, Model()) == EnforceLive(cfg, old(Model()))
        decreases |small| + |main|
      {
        if small == [] {
          EvictMainFrontToGhost();
        } else {
          EvictSmallFrontToGhost();
        }
      }
    }

    method TouchMain(key: K)
      requires Indexed() && key in liveTiers && liveTiers[key] == LiveMain
      modifies this`main
      ensures Indexed() && main == Without(old(main), key) + [key]
    {
      hide TierIndex, GhostIndex, OwnerCounters, Owned;
      TierToMain(liveTiers, small, main, key);
      main := Without(main, key) + [key];
    }

    method PromoteToMain(key: K)
      requires Indexed() && cfg.small <= cfg.live && key in liveTiers && liveTiers[key] == LiveSmall
      modifies this
      ensures Indexed()
      ensures var p := old(Model());
              Model() == EnforceLive(cfg, EnforceMain(cfg, p.(small := Without(p.small, key), main := p.main + [key])))
    {
      hide TierIndex, GhostIndex, OwnerCounters, Owned;
      TierToMain(liveTiers, small, main, key);
      small := Without(small, key);
      main := main + [key];
      liveTiers := liveTiers[key := LiveMain];
      EnforceMainCapacity();
      EnforceLiveCapacity();
    }

    method SetOwner(owner: string, key: K)
      requires OwnerCounters(ownerCounts, liveOwners) && key !in liveOwners
      modifies this`ownerCounts, this`liveOwners
      ensures OwnerCounters(ownerCounts, liveOwners) && liveOwners == old(liveOwners)[key := owner]
    {
      CountersAdd(ownerCounts, liveOwners, key, owner);
      liveOwners := liveOwners[key := owner];
      IncrementOwner(owner);
    }

    method InsertMain(owner: string, key: K)
      requires Indexed() && key !in liveTiers
      modifies this`main, this`liveTiers, this`ownerCounts, this`liveOwners
      ensures Indexed() && main == old(main) + [key] && liveOwners == old(liveOwners)[key := owner]
    {
      hide TierIndex, GhostIndex, OwnerCounters, Owned;
      TierAddMain(liveTiers, small, main, key);
      main := main + [key];
      liveTiers := liveTiers[key := LiveMain];
      SetOwner(owner, key);
    }

    method InsertSmall(owner: string, key: K)
      requires Indexed() && key !in liveTiers
      modifies this`small, this`liveTiers, this`ownerCounts, this`liveOwners
      ensures Indexed() && small == old(small) + [key] && liveOwners == old(liveOwners)[key := owner]
    {
      hide TierIndex, GhostIndex, OwnerCounters, Owned;
      TierAddSmall(liveTiers, small, main, key);
      small := small + [key];
      liveTiers := liveTiers[key := LiveSmall];
      SetOwner(owner, key);
    }

    method AdmitGhost(owner: string, key: K)
      requires Indexed() && cfg.small <= cfg.live && key !in liveTiers
      modifies this
      ensures Indexed()
      ensures var p := old(Model());
              Model() == EnforceLive(cfg, EnforceMain(cfg,
                p.(ghosts := Without(p.ghosts, key), main := p.main + [key], owner := p.owner[key := owner])))
    {
      hide TierIndex, GhostIndex, OwnerCounters, EnforceLive, EnforceMain, Without, ByGeneration;
      RemoveGhost(key);
      InsertMain(owner, key);
      EnforceMainCapacity();
      EnforceLiveCapacity();
    }

    method RemoveLiveKey(key: K)
      requires Indexed()
      modifies this`small, this`main, this`liveTiers, this`liveOwners, this`ownerCounts
      ensures Indexed() && key !in liveTiers
      ensures small == Without(old(small), key) && main == Without(old(main), key)
      ensures liveOwners == old(liveOwners) - {key}
      ensures key !in old(liveTiers) ==> small == old(small) && main == old(main) && liveOwners == old(liveOwners)
    {
      hide GhostIndex, OwnerCounters, Owned, Distinct;
      TierRemove(liveTiers, small, main, key);
      if key !in small { WithoutAbsent(small, key); }
      if key !in main { WithoutAbsent(main, key); }
      if key in liveTiers {
        match liveTiers[key] {
          case LiveSmall => small := Without(small, key);
          case LiveMain => main := Without(main, key);
        }
        liveTiers := liveTiers - {key};
        RemoveOwnerForKey(key);
      }
    }

    /** `purge_key`, on the only path that calls it: the key is new. */
    method PurgeKey(key: K)
      requires Indexed() && key !in liveTiers && key !in ghostLookup
      modifies this
      ensures Indexed() && Model() == old(Model()) && key !in liveTiers
    {
      hide TierIndex, GhostIndex, OwnerCounters, Without, ByGeneration;
      RemoveLiveKey(key);
      RemoveGhost(key);
    }

    method AdmitNew(owner: string, key: K)
      requires Indexed() && key !in liveTiers && key !in ghostLookup
      modifies this
      ensures Indexed()
      ensures var p := old(Model());
              var q := p.(small := p.small + [key], owner := p.owner[key := owner]);
              Model() == EnforceLive(cfg, EnforceSmall(cfg, q))
    {
      hide TierIndex, GhostIndex, OwnerCounters, EnforceLive, EnforceSmall, Without, ByGeneration;
      PurgeKey(key);
      InsertSmall(owner, key);
      EnforceSmallCapacity();
      EnforceLiveCapacity();
    }

    /** The window keeps the most recent signals. */
    method RecordSignal(signal: Signal)
      modifies this`recent
      ensures |old(recent)| <= cfg.window ==> recent == Record(cfg, old(recent), signal)
    {
      recent := recent + [signal];
      ghost var all := recent;
      while |recent| > cfg.window
        invariant |recent| <= |all| && recent == all[|all| - |recent|..]
        invariant |all| <= cfg.window ==> recent == all
        invariant |all| > cfg.window ==> |recent| >= cfg.window
        decreases |recent|
      {
        recent := recent[1..];
      }
    }

    method EvaluateFallback()
      requires fallback.None?
      modifies this`fallback
      ensures fallback == Evaluate(cfg, recent)
    {
      if |recent| >= cfg.window {
        var hits, rejections := 0, 0;
        for i := 0 to |recent|
          invariant hits == Count(recent[..i], (s: Signal) => s.ghostHit)
          invariant rejections == Count(recent[..i], (s: Signal) => s.rejected)
        {
          assert recent[..i + 1][..i] == recent[..i];
          if recent[i].ghostHit { hits := hits + 1; }
          if recent[i].rejected { rejections := rejections + 1; }
        }
        assert recent[..|recent|] == recent;
        if hits < cfg.minGhostHits {
          fallback := Some(SignalQualityInsufficient);
        } else if rejections > cfg.maxRejections {
          fallback := Some(FairnessInstability);
        }
      }
    }

    /** Which branch an access takes, answered from the indexes. */
    method Classify(owner: string, key: K) returns (kind: Kind, hit: bool)
      requires Indexed()
      ensures kind == KindOf(cfg, Model(), owner, key) && hit == IsGhostHit(Model(), key)
      ensures kind == HitMain ==> key in liveTiers && liveTiers[key] == LiveMain
      ensures kind == PromoteSmallToMain ==> key in liveTiers && liveTiers[key] == LiveSmall
      ensures kind == AdmitFromGhost ==> key !in liveTiers
      ensures kind == AdmitSmall ==> key !in liveTiers && key !in ghostLookup
    {
      GhostMembers(ghostOrder, ghostLookup, generation);
      IndexesAnswer(liveTiers, small, main, ownerCounts, liveOwners, owner, key);
      hide TierIndex, OwnerCounters, GhostIndex, ByGeneration, Owned;
      hit := false;
      var atBudget := (if owner in ownerCounts then ownerCounts[owner] else 0) >= cfg.perOwner;
      if key in liveTiers && liveTiers[key] == LiveMain {
        kind := HitMain;
      } else if key in liveTiers && liveTiers[key] == LiveSmall {
        kind := PromoteSmallToMain;
      } else if key in ghostLookup {
        hit := true;
        kind := if atBudget then RejectFairnessBudget else AdmitFromGhost;
      } else {
        kind := if atBudget then RejectFairnessBudget else AdmitSmall;
      }
    }

    /** The part of an access that moves keys. */
    method MoveKey(owner: string, key: K) returns (kind: Kind, hit: bool)
      requires Indexed() && cfg.small <= cfg.live
      modifies this
      ensures Indexed() && Model() == Move(cfg, old(Model()), owner, key)
      ensures kind == KindOf(cfg, old(Model()), owner, key) && hit == IsGhostHit(old(Model()), key)
    {
      hide TierIndex, OwnerCounters, GhostIndex, KindOf, IsGhostHit, Without, ByGeneration;
      hide EnforceLive, EnforceMain, EnforceSmall;
      kind, hit := Classify(owner, key);
      match kind {
        case HitMain => TouchMain(key);
        case PromoteSmallToMain => PromoteToMain(key);
        case AdmitFromGhost => AdmitGhost(owner, key);
        case AdmitSmall => AdmitNew(owner, key);
        case _ =>
      }
    }

    method FinishAccess(kind: Kind, hit: bool)
      requires fallback.None? && |recent| <= cfg.window
      modifies this`totals, this`recent, this`fallback
      ensures var signals := Record(cfg, old(recent), Signal(hit, kind == RejectFairnessBudget));
              totals == Tally(old(totals), kind, hit) && recent == signals && fallback == Evaluate(cfg, signals)
    {
      totals := Tally(totals, kind, hit);
      RecordSignal(Signal(hit, kind == RejectFairnessBudget));
      EvaluateFallback();
    }

    /** The indexed controller refines the index-free policy on every access. */
    method AccessKey(owner: string, key: K) returns (d: Decision)
      requires Valid()
      modifies this
      ensures Valid() && Model() == Access(cfg, old(Model()), owner, key)
      ensures d == Decide(cfg, old(Model()), owner, key)
    {
      hide TierIndex, GhostIndex, OwnerCounters, Move, KindOf, IsGhostHit, Evaluate, Record, Tally, ByGeneration, Owned;
      ghost var p := Model();
      GhostMembers(ghostOrder, ghostLookup, generation);
      if fallback.Some? {
        return Decision(FallbackBypass, Fallback, false, fallback, |small| + |main|, |small|, |main|, |ghostLookup|);
      }
      AccessKeepsInv(cfg, p, owner, key);
      MoveKeepsInv(cfg, p, owner, key);
      var kind, hit := MoveKey(owner, key);
      FinishAccess(kind, hit);
      GhostMembers(ghostOrder, ghostLookup, generation);
      d := Decision(kind, TierOf(kind, hit), hit, fallback, |small| + |main|, |small|, |main|, |ghostLookup|);
    }

    method ClearFallbackState()
      requires Valid()
      modifies this`fallback, this`recent
      ensures Valid() && Model() == ClearFallback(old(Model()))
    {
      fallback := None;
      recent := [];
    }
  }
}
