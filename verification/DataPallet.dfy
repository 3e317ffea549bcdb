/** The data pallet as an object. `upload_cids` writes cid by cid and may stop in the middle;
    `Dispatch` restores the snapshot taken before a failing upload. */
module DataPallet {
  import opened Widths
  import opened DataSpec
  import opened DataIndex

  datatype DispatchResult = Ok | Err(error: Error)

  ghost predicate Fits(cfg: Config, s: State, cid: Cid, p: PoolId) {
    |cid| <= cfg.maxCidLength && cid !in s.cids && |Listed(s, p)| < cfg.maxCidLength
  }

  /** One turn of the batch loop: the batch up to and including cid `i` is acceptable exactly
      when cid `i` fits after the ones before it; if not, the batch is not acceptable. */
  lemma NextCid(cfg: Config, s: State, uploader: AccountId, batch: seq<Cid>, i: nat, p: PoolId, now: BlockNumber)
    requires i < |batch| && Acceptable(cfg, s, batch[..i], p)
    ensures var t := Uploaded(s, uploader, batch[..i], p, now);
            && (Fits(cfg, t, batch[i], p) <==> Acceptable(cfg, s, batch[..i + 1], p))
            && (!Fits(cfg, t, batch[i], p) ==> !Acceptable(cfg, s, batch, p))
            && (Fits(cfg, t, batch[i], p)
                ==> Uploaded(s, uploader, batch[..i + 1], p, now) == Uploaded(t, uploader, [batch[i]], p, now))
  {
    var t := Uploaded(s, uploader, batch[..i], p, now);
    assert batch[..i] + [batch[i]] == batch[..i + 1] && batch[..i + 1] + batch[i + 1..] == batch;
    AcceptableConcat(cfg, s, uploader, batch[..i], [batch[i]], p, now);
    AcceptableConcat(cfg, s, uploader, batch[..i + 1], batch[i + 1..], p, now);
    SingletonFits(cfg, t, batch[i], p);
    if Fits(cfg, t, batch[i], p) {
      StoredAfter(s, uploader, batch[..i], p, now);
      UploadedConcat(s, uploader, batch[..i], [batch[i]], p, now);
    }
  }

  lemma SingletonFits(cfg: Config, s: State, cid: Cid, p: PoolId)
    ensures Acceptable(cfg, s, [cid], p) <==> Fits(cfg, s, cid, p)
  {
    assert [cid][0] == cid;
  }

  class Pallet {
    const cfg: Config
    var cids: map<Cid, CidInfo>
    var cidsByPool: map<PoolId, seq<Cid>>
    ghost var history: seq<Call>

    function Storage(): State
      reads this
    {
      State(cids, cidsByPool)
    }

    ghost predicate Valid()
      reads this
    {
      Storage() == Run(cfg, history)
    }

    constructor (cfg: Config)
      ensures Valid() && this.cfg == cfg && history == []
    {
      this.cfg := cfg;
      cids, cidsByPool := map[], map[];
      history := [];
    }

    method Dispatch(c: Call) returns (r: DispatchResult)
      requires Valid()
      modifies this
      ensures Valid() && history == old(history) + [c]
      ensures Storage() == Step(cfg, old(Storage()), c)
      ensures r == match Apply(cfg, old(Storage()), c) case Done(_) => Ok case Failed(error) => Err(error)
    {
      var snapshot := Storage();
      r := UploadCidsCall(c.uploader, c.cids, c.pool, c.now);
      if r.Err? {
        cids, cidsByPool := snapshot.cids, snapshot.byPool;
      }
      history := history + [c];
      assert history[..|history| - 1] == old(history);
    }

    /** The batch loop. It stops at the first cid that is too long, already stored (by an
        earlier upload or earlier in the batch) or for which the list is full. */
    method UploadCidsCall(uploader: AccountId, batch: seq<Cid>, p: PoolId, now: BlockNumber) returns (r: DispatchResult)
      modifies this`cids, this`cidsByPool
      ensures r.Ok? <==> Acceptable(cfg, old(Storage()), batch, p)
      ensures r.Ok? ==> Storage() == Uploaded(old(Storage()), uploader, batch, p, now)
      ensures r.Err? ==> (r.error == Trapped <==> Traps(cfg, old(Storage()), batch, p))
      ensures r.Ok? ==> && (forall c :: c in cids <==> c in old(cids) || c in batch)
                        && (forall c :: c in old(cids) ==> c !in batch && cids[c] == old(cids)[c])
                        && (forall c :: c in batch ==> |c| <= cfg.maxCidLength && cids[c] == CidInfo(c, uploader, p, now))
    {
      ghost var before := Storage();
      for i := 0 to |batch|
        invariant Acceptable(cfg, before, batch[..i], p)
        invariant Storage() == Uploaded(before, uploader, batch[..i], p, now)
        invariant i > 0 ==> cfg.maxCidLength > 0
      {
        NextCid(cfg, before, uploader, batch, i, p, now);
        r := UploadOne(uploader, batch[i], p, now);
        if r.Err? {
          return;
        }
      }
      assert batch[..|batch|] == batch;
      return Ok;
    }

    /** The body of the loop. */
    method UploadOne(uploader: AccountId, cid: Cid, p: PoolId, now: BlockNumber) returns (r: DispatchResult)
      modifies this`cids, this`cidsByPool
      ensures r.Ok? <==> Fits(cfg, old(Storage()), cid, p)
      ensures r.Ok? ==> Storage() == Uploaded(old(Storage()), uploader, [cid], p, now)
      ensures r.Err? ==> (r.error == Trapped <==> Traps(cfg, old(Storage()), [cid], p))
    {
      ghost var before := Storage();
      if |cid| > cfg.maxCidLength {
        return Err(CidAlreadyExists);
      }
      if cid in cids {
        return Err(CidAlreadyExists);
      }
      cids := cids[cid := CidInfo(cid, uploader, p, now)];
      if p in cidsByPool {
        if |cidsByPool[p]| >= cfg.maxCidLength {
          return Err(CidAlreadyExists);
        }
        cidsByPool := cidsByPool[p := cidsByPool[p] + [cid]];
      } else {
        if 1 > cfg.maxCidLength {
          return Err(Trapped);
        }
        cidsByPool := cidsByPool[p := [cid]];
      }
      assert before.cids + Records(uploader, [cid], p, now) == cids;
      assert cidsByPool == before.byPool[p := Listed(before, p) + [cid]] by {
        assert [] + [cid] == [cid];
      }
      return Ok;
    }

    method GetCidsByPool(p: PoolId) returns (listed: seq<Cid>)
      requires Valid()
      ensures Distinct(listed) && forall c :: c in listed <==> c in cids && cids[c].pool == p
      ensures listed == UploadsTo(cfg, history, p)
    {
      ListedIs(cfg, history, p);
      listed := Listed(Storage(), p);
    }
  }
}
