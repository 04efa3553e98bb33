/** The in-memory tombstone store, and what becomes of every tombstone over a whole run. */
module Tombstones {
  import opened Wrappers

  /** Times are milliseconds since the Unix epoch. */
  datatype Tombstone = Tombstone(playerID: string, roomID: string, expireAt: int)

  datatype Op =
    | Store(token: string, data: Tombstone)
    | Consume(token: string)
    | Delete(token: string)
    | DeleteByPlayer(playerID: string)
    | Sweep

  /** One locked operation and the clock reading it used. */
  datatype Event = Event(now: int, op: Op)

  type Held = map<string, Tombstone>

  /** The tokens whose tombstones the operation hands to its caller. */
  function Handed(m: Held, e: Event): set<string> {
    match e.op
    case Consume(t) => if t in m && e.now <= m[t].expireAt then {t} else {}
    case Sweep => set t | t in m && e.now > m[t].expireAt
    case _ => {}
  }

  function Apply(m: Held, e: Event): Held {
    match e.op
    case Store(t, d) => m[t := d]
    case Consume(_) => m - Handed(m, e)
    case Delete(t) => m - {t}
    case DeleteByPlayer(p) => map t | t in m && m[t].playerID != p :: m[t]
    case Sweep => m - Handed(m, e)
  }

  class MemoryTombstoneStore {
    var tombstones: Held

    constructor ()
      ensures tombstones == map[]
    {
      tombstones := map[];
    }

    method Store(token: string, data: Tombstone)
      modifies this
      ensures tombstones == Apply(old(tombstones), Event(0, Op.Store(token, data)))
    {
      tombstones := tombstones[token := data];
    }

    method Consume(token: string, now: int) returns (r: Option<Tombstone>)
      modifies this
      ensures tombstones == Apply(old(tombstones), Event(now, Op.Consume(token)))
      ensures r == if token in Handed(old(tombstones), Event(now, Op.Consume(token)))
                   then Some(old(tombstones)[token]) else None
    {
      if token !in tombstones {
        return None;
      }
      var t := tombstones[token];
      if now > t.expireAt {
        return None;
      }
      tombstones := tombstones - {token};
      return Some(t);
    }

    method Delete(token: string)
      modifies this
      ensures tombstones == Apply(old(tombstones), Event(0, Op.Delete(token)))
    {
      tombstones := tombstones - {token};
    }

    method DeleteByPlayerID(playerID: string)
      modifies this
      ensures tombstones == Apply(old(tombstones), Event(0, DeleteByPlayer(playerID)))
    {
      ghost var before := tombstones;
      var pending := tombstones.Keys;
      while pending != {}
        invariant pending <= tombstones.Keys
        invariant tombstones == map t | t in before && (t in pending || before[t].playerID != playerID) :: before[t]
        decreases pending
      {
        var k :| k in pending;
        pending := pending - {k};
        if tombstones[k].playerID == playerID {
          tombstones := tombstones - {k};
        }
      }
    }

    method Count() returns (n: nat)
      ensures n == |tombstones|
    {
      n := |tombstones|;
    }

    /** Map iteration order is arbitrary; `order` records the one that was taken. */
    method GetExpiredAndRemove(now: int) returns (expired: seq<Tombstone>, ghost order: seq<string>)
      modifies this
      ensures tombstones == Apply(old(tombstones), Event(now, Sweep))
      ensures |expired| == |order| && forall i, j | 0 <= i < j < |order| :: order[i] != order[j]
      ensures (set t | t in order) == Handed(old(tombstones), Event(now, Sweep))
      ensures forall i | 0 <= i < |order| :: order[i] in old(tombstones) && expired[i] == old(tombstones)[order[i]]
    {
      ghost var before := tombstones;
      expired, order := [], [];
      var pending := tombstones.Keys;
      while pending != {}
        invariant pending <= tombstones.Keys <= before.Keys
        invariant tombstones == map t | t in before && (t in pending || now <= before[t].expireAt) :: before[t]
        invariant |expired| == |order|
        invariant forall t :: t in order <==> t in before && t !in pending && now > before[t].expireAt
        invariant forall i | 0 <= i < |order| :: order[i] in before && expired[i] == before[order[i]]
        invariant forall i, j | 0 <= i < j < |order| :: order[i] != order[j]
        decreases pending
      {
        var token :| token in pending;
        pending := pending - {token};
        var t := tombstones[token];
        if now > t.expireAt {
          expired, order := expired + [t], order + [token];
          tombstones := tombstones - {token};
        }
      }
    }
  }

  /* Whole runs */

  ghost function StateAfter(es: seq<Event>): Held {
    if es == [] then map[] else Apply(StateAfter(es[..|es| - 1]), es[|es| - 1])
  }

  ghost predicate MonotoneClock(es: seq<Event>) {
    forall i, j | 0 <= i < j < |es| :: es[i].now <= es[j].now
  }

  ghost predicate IsStore(es: seq<Event>, i: int, token: string) {
    0 <= i < |es| && es[i].op.Store? && es[i].op.token == token
  }

  datatype Fate = Live | Consumed(at: nat) | Swept(at: nat) | Deleted(at: nat) | Overwritten(at: nat)

  /** The operation takes this tombstone out of the store. */
  ghost predicate Ends(e: Event, token: string, d: Tombstone) {
    match e.op
    case Store(t, _) => t == token
    case Consume(t) => t == token && e.now <= d.expireAt
    case Delete(t) => t == token
    case DeleteByPlayer(p) => p == d.playerID
    case Sweep => e.now > d.expireAt
  }

  ghost function Verdict(op: Op, at: nat): Fate {
    match op
    case Store(_, _) => Overwritten(at)
    case Consume(_) => Consumed(at)
    case Sweep => Swept(at)
    case _ => Deleted(at)
  }

  /** The first event from position `j` on that takes the tombstone decides its fate. */
  ghost function FateFrom(es: seq<Event>, token: string, d: Tombstone, j: nat): Fate
    decreases |es| - j
  {
    if j >= |es| then Live
    else if Ends(es[j], token, d) then Verdict(es[j].op, j)
    else FateFrom(es, token, d, j + 1)
  }

  /** What became of the tombstone stored by event `i`, read off the run alone. */
  ghost function FateOf(es: seq<Event>, i: nat): Fate
    requires i < |es| && es[i].op.Store?
  {
    FateFrom(es, es[i].op.token, es[i].op.data, i + 1)
  }

  lemma {:induction false} FateIsFirstEnd(es: seq<Event>, token: string, d: Tombstone, j: nat)
    requires j <= |es|
    ensures var f := FateFrom(es, token, d, j);
      && (f.Live? <==> forall k | j <= k < |es| :: !Ends(es[k], token, d))
      && (!f.Live? ==> j <= f.at < |es| && Ends(es[f.at], token, d) && f == Verdict(es[f.at].op, f.at)
                       && forall k | j <= k < f.at :: !Ends(es[k], token, d))
    decreases |es| - j
  {
    if j < |es| && !Ends(es[j], token, d) {
      FateIsFirstEnd(es, token, d, j + 1);
    }
  }

  /** Later events cannot change a fate already sealed. */
  lemma FateOfPrefix(es: seq<Event>, n: nat, i: nat)
    requires i < n <= |es| && es[i].op.Store?
    ensures var f := FateOf(es, i);
            FateOf(es[..n], i) == if !f.Live? && f.at < n then f else Live
  {
    var token, d := es[i].op.token, es[i].op.data;
    FateIsFirstEnd(es, token, d, i + 1);
    FateIsFirstEnd(es[..n], token, d, i + 1);
    var f, g := FateOf(es, i), FateOf(es[..n], i);
    if !g.Live? && !f.Live? && f.at < n {
      assert es[..n][f.at] == es[f.at] && es[..n][g.at] == es[g.at];
    }
    if !g.Live? { assert es[..n][g.at] == es[g.at]; }
    if !f.Live? && f.at < n { assert es[..n][f.at] == es[f.at]; }
  }

  /** The store event whose tombstone is held under `token`. */
  ghost predicate Holds(es: seq<Event>, i: int, token: string) {
    IsStore(es, i, token) && FateOf(es, i) == Live
  }

  lemma OneHolder(es: seq<Event>, i: nat, j: nat, token: string)
    requires Holds(es, i, token) && Holds(es, j, token)
    ensures i == j
  {
    FateIsFirstEnd(es, token, es[i].op.data, i + 1);
    FateIsFirstEnd(es, token, es[j].op.data, j + 1);
  }

  /** The store holds under a token exactly the one tombstone stored there whose fate is still open. */
  lemma {:induction false} HeldIffLive(es: seq<Event>, token: string)
    ensures token in StateAfter(es) <==> exists i :: Holds(es, i, token)
    ensures forall i | Holds(es, i, token) :: token in StateAfter(es) && StateAfter(es)[token] == es[i].op.data
  {
    if es != [] {
      var n := |es| - 1;
      var before, e := es[..n], es[n];
      HeldIffLive(before, token);
      forall i | IsStore(before, i, token)
        ensures Holds(es, i, token) <==> Holds(before, i, token) && !Ends(e, token, es[i].op.data)
      {
        FateOfPrefix(es, n, i);
        FateIsFirstEnd(es, token, es[i].op.data, i + 1);
      }
      if e.op.Store? && e.op.token == token {
        assert Holds(es, n, token);
        forall i | Holds(es, i, token) ensures i == n {
          OneHolder(es, i, n, token);
        }
      } else {
        forall i | Holds(es, i, token) ensures Holds(before, i, token) {
          assert IsStore(before, i, token);
        }
        if token in StateAfter(es) {
          var i :| Holds(before, i, token);
          assert Holds(es, i, token);
        }
      }
    }
  }

  /** An operation hands out a tombstone exactly when the run's own reading says that this is where it ended. */
  lemma HandedIffFate(es: seq<Event>, j: nat, token: string)
    requires j < |es|
    ensures token in Handed(StateAfter(es[..j]), es[j])
       <==> exists i :: IsStore(es[..j], i, token) && FateOf(es, i) in {Consumed(j), Swept(j)}
    ensures forall i | IsStore(es[..j], i, token) && FateOf(es, i) in {Consumed(j), Swept(j)} ::
              token in StateAfter(es[..j]) && StateAfter(es[..j])[token] == es[i].op.data
  {
    var before := es[..j];
    HeldIffLive(before, token);
    forall i | IsStore(before, i, token)
      ensures FateOf(es, i) in {Consumed(j), Swept(j)}
         <==> Holds(before, i, token) && Ends(es[j], token, es[i].op.data) && (es[j].op.Consume? || es[j].op.Sweep?)
    {
      FateOfPrefix(es, j, i);
      FateIsFirstEnd(es, token, es[i].op.data, i + 1);
    }
    if token in Handed(StateAfter(before), es[j]) {
      var i :| Holds(before, i, token);
      assert IsStore(before, i, token) && FateOf(es, i) in {Consumed(j), Swept(j)};
    }
  }

  /** A tombstone is consumed only while unexpired and swept only once expired. */
  lemma FateRespectsExpiry(es: seq<Event>, i: nat)
    requires i < |es| && es[i].op.Store?
    ensures var f := FateOf(es, i);
      && (f.Consumed? ==> f.at < |es| && es[f.at].now <= es[i].op.data.expireAt)
      && (f.Swept? ==> f.at < |es| && es[f.at].now > es[i].op.data.expireAt)
  {
    FateIsFirstEnd(es, es[i].op.token, es[i].op.data, i + 1);
  }

  /** Two hand-outs of one token are separated by a new Store of it: nothing is ever handed out twice. */
  lemma HandedOnlyOnce(es: seq<Event>, j: nat, j': nat, token: string)
    requires j < j' < |es|
    requires token in Handed(StateAfter(es[..j]), es[j]) && token in Handed(StateAfter(es[..j']), es[j'])
    ensures exists i :: j < i < j' && IsStore(es, i, token)
  {
    HandedIffFate(es, j, token);
    HandedIffFate(es, j', token);
    var i :| IsStore(es[..j], i, token) && FateOf(es, i) in {Consumed(j), Swept(j)};
    var i' :| IsStore(es[..j'], i', token) && FateOf(es, i') in {Consumed(j'), Swept(j')};
    if i' < j {
      FateOfPrefix(es, j, i);
      FateOfPrefix(es, j, i');
      OneHolder(es[..j], i, i', token);
    }
    assert i' != j;
    assert IsStore(es, i', token);
  }

  /** Once the clock has passed a tombstone's expiry it is never consumed again. */
  lemma ExpiredIsNeverConsumed(es: seq<Event>, i: nat, k: nat)
    requires MonotoneClock(es)
    requires i < k < |es| && es[i].op.Store? && es[k].now > es[i].op.data.expireAt
    ensures FateOf(es, i).Consumed? ==> FateOf(es, i).at < k
  {
    FateRespectsExpiry(es, i);
  }

  /** A sweep leaves nothing expired behind: whatever had expired by then has met its fate, at the latest there. */
  lemma SweepIsComplete(es: seq<Event>, j: nat, i: nat)
    requires i < j < |es| && es[i].op.Store? && es[j].op == Sweep && es[j].now > es[i].op.data.expireAt
    ensures FateOf(es, i) != Live && FateOf(es, i).at <= j
    ensures FateOf(es, i).at == j ==> FateOf(es, i) == Swept(j)
  {
    FateIsFirstEnd(es, es[i].op.token, es[i].op.data, i + 1);
    assert Ends(es[j], es[i].op.token, es[i].op.data);
  }

  ghost function Stores(es: seq<Event>, token: string): nat {
    if es == [] then 0
    else Stores(es[..|es| - 1], token) + if IsStore(es, |es| - 1, token) then 1 else 0
  }

  /** Successful consumes of a token. */
  ghost function Consumes(es: seq<Event>, token: string): nat {
    if es == [] then 0
    else
      var before := es[..|es| - 1];
      Consumes(before, token)
      + if es[|es| - 1].op.Consume? && token in Handed(StateAfter(before), es[|es| - 1]) then 1 else 0
  }

  lemma {:induction false} ConsumesNeverOutnumberStores(es: seq<Event>, token: string)
    ensures Consumes(es, token) + (if token in StateAfter(es) then 1 else 0) <= Stores(es, token)
  {
    if es != [] {
      ConsumesNeverOutnumberStores(es[..|es| - 1], token);
    }
  }
}
