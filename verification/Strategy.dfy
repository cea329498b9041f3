/** The piece strategy as an object whose loops update its maps in place. */
module Strategy {
  import opened Bytes
  import opened TorrentContext
  import opened Swarm
  import BitFields
  import Download
  import Storage

  /**
   * Downloaders are named by identity; `objects` gives the state each has now. Each method is taken
   * as one step, its parameters being the orders that the shuffle and the pointer order choose.
   */
  class RandomPieceStrategy {
    const ctx: Context
    const policy: Download.Policy
    const storage: Storage.Vault
    var pieceDownloaders: map<uint32, seq<Id>>
    var peerPool: map<Id, seq<uint32>>
    var connections: map<nat, Contact>
    var missing: set<uint32>
    var objects: map<Id, Remote>
    var nextId: Id
    ghost var history: seq<Observation>

    ghost function State(): Swarm.State
      reads this, storage
    {
      Swarm.State(pieceDownloaders, peerPool, connections, missing, storage.files, objects, nextId, history)
    }

    constructor (ctx: Context, storage: Storage.Vault)
      ensures this.ctx == ctx && this.storage == storage && policy == Download.DEFAULT_POLICY
      ensures State() == Initial(ctx, storage.files)
    {
      this.ctx, this.storage, this.policy := ctx, storage, Download.DEFAULT_POLICY;
      pieceDownloaders, peerPool, connections, objects := map[], map[], map[], map[];
      nextId, missing, history := 0, {}, [];
      new;
      var i := 0;
      while i < ctx.pieceCount
        invariant i <= ctx.pieceCount
        invariant missing == set p: uint32 | p < i && p !in storage.files
        invariant pieceDownloaders == map[] && peerPool == map[] && connections == map[] && objects == map[]
        invariant nextId == 0 && history == []
      {
        if !storage.Exists(i) {
          missing := missing + {i};
        }
        i := i + 1;
      }
    }

    method IncludePeers(contacts: seq<Contact>)
      modifies this
      ensures State() == Include(old(State()), contacts)
    {
      var k := 0;
      while k < |contacts|
        invariant k <= |contacts|
        invariant Include(State(), contacts[k..]) == Include(old(State()), contacts)
      {
        var contact := contacts[k];
        if contact.address !in connections {
          connections := connections[contact.address := contact];
          objects := objects[nextId := Remote(contact, Download.INITIAL)];
          peerPool := peerPool[nextId := []];
          nextId := nextId + 1;
        }
        assert contacts[k..][1..] == contacts[k + 1..];
        k := k + 1;
      }
    }

    /** `download_piece` on the downloader `d`. */
    method DownloadFrom(d: Id, p: uint32) returns (accepted: bool)
      requires Setting(ctx, policy) && d in objects
      modifies `objects, `history
      ensures (accepted, State()) == Ask(ctx, policy, old(State()), d, p)
    {
      var o := objects[d].state;
      history := history + [Asked(d, p, p in o.pieces, HasRequests(o, p))];
      var answer := Download.Start(ctx, policy, o, p);
      objects := objects[d := Remote(objects[d].contact, answer.1)];
      accepted := answer.0;
    }

    /** The inner loops of `assign` for one piece. */
    method VisitPiece(p: uint32, pool: seq<Id>)
      requires Setting(ctx, policy) && Live(State(), pool)
      modifies `pieceDownloaders, `peerPool, `objects, `history
      ensures State() == Visit(ctx, policy, old(State()), p, pool)
    {
      hide BitFields.Get;
      if p !in pieceDownloaders {
        pieceDownloaders := pieceDownloaders[p := []];
      }
      ghost var touched := State();
      assert touched == Touch(old(State()), p);
      if |pieceDownloaders[p]| < MAX_DOWNLOADERS {
        var k := 0;
        while k < |pool|
          invariant k <= |pool| && State() == touched && p in pieceDownloaders
          invariant Offer(ctx, policy, touched, p, pool[k..]) == Offer(ctx, policy, touched, p, pool)
        {
          var d := pool[k];
          assert pool[k..][1..] == pool[k + 1..];
          if d !in pieceDownloaders[p] {
            if BitFields.Get(objects[d].state.peer.remoteBitfield, p) && |peerPool[d]| < MAX_PIECES {
              var accepted := DownloadFrom(d, p);  // true, by AskAccepts
              peerPool := peerPool[d := peerPool[d] + [p]];
              pieceDownloaders := pieceDownloaders[p := pieceDownloaders[p] + [d]];
              return;
            }
          }
          k := k + 1;
        }
      }
    }

    method AssignPieces(order: seq<uint32>, pool: seq<Id>)
      requires Setting(ctx, policy) && Live(State(), pool)
      modifies `pieceDownloaders, `peerPool, `objects, `history
      ensures State() == Assign(ctx, policy, old(State()), order, pool)
    {
      var i := 0;
      while i < PASSES
        invariant i <= PASSES && Live(State(), pool)
        invariant
          Passes(ctx, policy, State(), order, pool, PASSES - i) == Assign(ctx, policy, old(State()), order, pool)
      {
        ghost var s := State();
        var k := 0;
        while k < |order|
          invariant k <= |order| && Live(State(), pool)
          invariant Pass(ctx, policy, State(), order[k..], pool) == Pass(ctx, policy, s, order, pool)
        {
          assert order[k..][1..] == order[k + 1..];
          VisitPiece(order[k], pool);
          k := k + 1;
        }
        i := i + 1;
      }
    }

    method RevokeInactive(inactive: set<Id>, pool: seq<Id>)
      requires Live(State(), pool)
      modifies `pieceDownloaders, `peerPool, `connections, `objects
      ensures State() == Revoke(old(State()), inactive, pool)
    {
      ghost var s := State();
      var toRemove := ScanPool(inactive, pool);
      ToRemoveFromPool(s, inactive, pool);
      Remove(toRemove);
    }

    method ScanPool(inactive: set<Id>, pool: seq<Id>) returns (toRemove: seq<Id>)
      requires Live(State(), pool)
      modifies `pieceDownloaders
      ensures State() == Scan(old(State()), inactive, pool)
      ensures toRemove == ToRemove(old(State()), inactive, pool)
    {
      hide Unlist, Without;
      toRemove := [];
      ghost var s := State();
      var k := 0;
      while k < |pool|
        invariant k <= |pool|
        invariant State() == s.(pieceDownloaders := pieceDownloaders)
        invariant Scan(State(), inactive, pool[k..]) == Scan(s, inactive, pool)
        invariant toRemove + ToRemove(s, inactive, pool[k..]) == ToRemove(s, inactive, pool)
      {
        var d := pool[k];
        assert pool[k..][1..] == pool[k + 1..];
        if d in inactive {
          toRemove := UnlistHeld(d, toRemove);
        }
        k := k + 1;
      }
      assert pool[k..] == [];
    }

    /** Takes `d` off the list of each piece it holds, and names it once for each of them. */
    method UnlistHeld(d: Id, named: seq<Id>) returns (toRemove: seq<Id>)
      requires d in peerPool
      modifies `pieceDownloaders
      ensures State() == Unlist(old(State()), d, Held(old(State()), d))
      ensures toRemove == named + seq(|peerPool[d]|, _ => d)
    {
      toRemove := named;
      var ps, j := peerPool[d], 0;
      while j < |ps|
        invariant j <= |ps| && toRemove == named + seq(j, _ => d)
        invariant Unlist(State(), d, ps[j..]) == Unlist(old(State()), d, ps)
      {
        var p := ps[j];
        assert ps[j..][1..] == ps[j + 1..];
        var listed := if p in pieceDownloaders then pieceDownloaders[p] else [];
        pieceDownloaders := pieceDownloaders[p := Without(listed, d)];
        toRemove := toRemove + [d];
        j := j + 1;
      }
    }

    method Remove(ds: seq<Id>)
      requires forall d :: d in ds ==> d in objects
      modifies `peerPool, `connections, `objects
      ensures State() == Forget(DropAll(old(State()), ds))
    {
      var k := 0;
      while k < |ds|
        invariant k <= |ds| && objects == old(objects)
        invariant DropAll(State(), ds[k..]) == DropAll(old(State()), ds)
      {
        var d := ds[k];
        assert ds[k..][1..] == ds[k + 1..];
        peerPool := peerPool - {d};
        connections := connections - {objects[d].contact.address};
        k := k + 1;
      }
      objects := map d | d in objects && d in peerPool :: objects[d];
    }

    /** One downloader of one piece. */
    method CollectPiece(p: uint32, d: Id) returns (completed: bool)
      requires Setting(ctx, policy) && d in objects && p < |ctx.pieceHashes|
      modifies `peerPool, `missing, `objects, `history, storage
      ensures (completed, State()) == Collect(ctx, policy, old(State()), p, d)
    {
      var answer := Download.Retrieve(ctx, objects[d].state, p);
      objects := objects[d := Remote(objects[d].contact, answer.1)];
      completed := false;
      if answer.0.Some? {
        var piece := answer.0.value;
        if piece.status == Download.Complete {
          storage.PushPiece(p, piece.data, false);
          var held := if d in peerPool then peerPool[d] else [];
          history := history + [Judged(d, p, false)] + [Erased(d, p, p in held)];
          peerPool := peerPool[d := EraseOne(held, p)];
          missing := missing - {p};
          completed := true;
        } else if piece.status == Download.Corrupt {
          history := history + [Judged(d, p, true)];
          var accepted := DownloadFrom(d, p);
        }
      }
    }

    method CollectPieces(keys: seq<uint32>) returns (done: bool)
      requires Setting(ctx, policy) && Grounded(ctx, State(), keys)
      modifies `pieceDownloaders, `peerPool, `missing, `objects, `history, storage
      ensures (done, State()) == IsDone(ctx, policy, old(State()), keys)
    {
      hide CollectFrom, CollectAll;
      var completed: set<uint32> := {};
      ghost var s, all := State(), CollectAll(ctx, policy, State(), keys);
      var k := 0;
      while k < |keys|
        invariant k <= |keys| && pieceDownloaders == old(pieceDownloaders)
        invariant Grounded(ctx, State(), keys[k..])
        invariant
          var rest := CollectAll(ctx, policy, State(), keys[k..]);
          rest.1 == all.1 && completed + rest.0 == all.0
      {
        var p := keys[k];
        assert keys[k..][0] == p && keys[k..][1..] == keys[k + 1..];
        assert p in keys[k..];
        ghost var before := State();
        CollectAllNext(ctx, policy, before, keys[k..]);
        var found := CollectFromAll(p, if p in pieceDownloaders then pieceDownloaders[p] else []);
        assert State() == CollectFrom(ctx, policy, before, p, Listed(before, p)).1;
        assert forall q :: q in keys[k + 1..] ==> q in keys[k..] && Listed(State(), q) == Listed(before, q);
        if found {
          completed := completed + {p};
        }
        k := k + 1;
      }
      assert keys[k..] == [];
      CollectAllNext(ctx, policy, State(), keys[k..]);
      pieceDownloaders := pieceDownloaders - completed;
      done := missing == {};
    }

    method CollectFromAll(p: uint32, ds: seq<Id>) returns (found: bool)
      requires Setting(ctx, policy) && p < |ctx.pieceHashes|
      requires forall d :: d in ds ==> d in objects
      modifies `peerPool, `missing, `objects, `history, storage
      ensures (found, State()) == CollectFrom(ctx, policy, old(State()), p, ds)
    {
      found := false;
      ghost var all := CollectFrom(ctx, policy, State(), p, ds);
      var k := 0;
      while k < |ds|
        invariant k <= |ds| && forall d :: d in ds ==> d in objects
        invariant
          var rest := CollectFrom(ctx, policy, State(), p, ds[k..]);
          rest.1 == all.1 && (found || rest.0) == all.0
      {
        assert ds[k..][0] == ds[k] && ds[k..][1..] == ds[k + 1..];
        var completed := CollectPiece(p, ds[k]);
        found := found || completed;
        k := k + 1;
      }
      assert ds[k..] == [];
    }
  }
}
