/** Where the records of the data pallet come from, and exactly which uploads succeed, in terms
    of the calls of a run. */
module DataHistory {
  import opened DataSpec
  import opened DataIndex

  /** The `k`-th call of the run is a successful upload that names the cid. */
  ghost predicate UploadsAt(cfg: Config, calls: seq<Call>, k: nat, c: Cid) {
    k < |calls| && c in calls[k].cids && Apply(cfg, Run(cfg, calls[..k]), calls[k]).Done?
  }

  lemma StepRecords(cfg: Config, s: State, u: Call, c: Cid)
    ensures c in s.cids ==> c in Step(cfg, s, u).cids && Step(cfg, s, u).cids[c] == s.cids[c]
    ensures c in s.cids && c in u.cids ==> Apply(cfg, s, u).Failed?
    ensures c !in s.cids ==>
              && (c in Step(cfg, s, u).cids <==> c in u.cids && Apply(cfg, s, u).Done?)
              && (c in Step(cfg, s, u).cids ==> Step(cfg, s, u).cids[c] == CidInfo(c, u.uploader, u.pool, u.now))
  {
    if Acceptable(cfg, s, u.cids, u.pool) {
      NewCids(cfg, s, u.cids, u.pool);
    }
  }

  lemma EarlierUploads(cfg: Config, calls: seq<Call>, k: nat, c: Cid)
    requires k < |calls| - 1
    ensures UploadsAt(cfg, calls, k, c) == UploadsAt(cfg, calls[..|calls| - 1], k, c)
  {
    assert calls[..|calls| - 1][..k] == calls[..k];
  }

  lemma {:induction false} UploadedIsStored(cfg: Config, calls: seq<Call>, k: nat, c: Cid)
    requires UploadsAt(cfg, calls, k, c)
    ensures c in Run(cfg, calls).cids
  {
    var front := calls[..|calls| - 1];
    StepRecords(cfg, Run(cfg, front), calls[|front|], c);
    if k < |front| {
      EarlierUploads(cfg, calls, k, c);
      UploadedIsStored(cfg, front, k, c);
    }
  }

  lemma NotUploadedAgain(cfg: Config, calls: seq<Call>, j: nat, k: nat, c: Cid)
    requires j < k && UploadsAt(cfg, calls, j, c)
    ensures !UploadsAt(cfg, calls, k, c)
  {
    if k < |calls| {
      assert calls[..k][..j] == calls[..j];
      UploadedIsStored(cfg, calls[..k], j, c);
      StepRecords(cfg, Run(cfg, calls[..k]), calls[k], c);
    }
  }

  /** Every record comes from one successful upload and carries the uploader, the pool and
      the block of that call. */
  lemma {:induction false} RecordsComeFrom(cfg: Config, calls: seq<Call>, c: Cid) returns (k: nat)
    requires c in Run(cfg, calls).cids
    ensures UploadsAt(cfg, calls, k, c)
    ensures Run(cfg, calls).cids[c] == CidInfo(c, calls[k].uploader, calls[k].pool, calls[k].now)
  {
    var front := calls[..|calls| - 1];
    StepRecords(cfg, Run(cfg, front), calls[|front|], c);
    if c in Run(cfg, front).cids {
      k := RecordsComeFrom(cfg, front, c);
      EarlierUploads(cfg, calls, k, c);
    } else {
      k := |front|;
    }
  }

  /** That upload is the only successful one that names the cid. */
  lemma RecordsWereUploaded(cfg: Config, calls: seq<Call>, c: Cid) returns (k: nat)
    requires c in Run(cfg, calls).cids
    ensures UploadsAt(cfg, calls, k, c) && forall j :: UploadsAt(cfg, calls, j, c) ==> j == k
    ensures Run(cfg, calls).cids[c] == CidInfo(c, calls[k].uploader, calls[k].pool, calls[k].now)
  {
    k := RecordsComeFrom(cfg, calls, c);
    forall j: nat | UploadsAt(cfg, calls, j, c) ensures j == k {
      if j < k {
        NotUploadedAgain(cfg, calls, j, k, c);
      } else if k < j {
        NotUploadedAgain(cfg, calls, k, j, c);
      }
    }
  }

  lemma StoredIff(cfg: Config, calls: seq<Call>, c: Cid)
    ensures c in Run(cfg, calls).cids <==> exists k :: UploadsAt(cfg, calls, k, c)
  {
    if c in Run(cfg, calls).cids {
      var k := RecordsWereUploaded(cfg, calls, c);
    }
    if k :| UploadsAt(cfg, calls, k, c) {
      UploadedIsStored(cfg, calls, k, c);
    }
  }

  /** Under a bound of zero nothing is ever stored. */
  lemma {:induction false} NothingFits(cfg: Config, calls: seq<Call>)
    requires cfg.maxCidLength == 0
    ensures Run(cfg, calls) == Init()
  {
    if calls != [] {
      NothingFits(cfg, calls[..|calls| - 1]);
    }
  }

  /** After any run a batch is taken exactly if its cids are short enough, all different, in
      no batch taken before, and no more than the pool's list has room for beside the cids
      of the batches it took; it traps only under a bound of zero. */
  lemma UploadSucceedsIff(cfg: Config, calls: seq<Call>, u: Call)
    ensures Apply(cfg, Run(cfg, calls), u).Done?
            <==> && (forall i :: 0 <= i < |u.cids| ==> |u.cids[i]| <= cfg.maxCidLength)
                 && (forall i, j :: 0 <= i < j < |u.cids| ==> u.cids[i] != u.cids[j])
                 && (forall k, c :: c in u.cids ==> !UploadsAt(cfg, calls, k, c))
                 && (u.cids != [] ==> |UploadsTo(cfg, calls, u.pool)| + |u.cids| <= cfg.maxCidLength)
    ensures Apply(cfg, Run(cfg, calls), u) == Failed(Trapped)
            <==> cfg.maxCidLength == 0 && u.cids != [] && u.cids[0] == []
  {
    IndexIsHistory(cfg, calls);
    forall c ensures c in Run(cfg, calls).cids <==> exists k :: UploadsAt(cfg, calls, k, c) {
      StoredIff(cfg, calls, c);
    }
    if cfg.maxCidLength == 0 {
      NothingFits(cfg, calls);
    }
  }
}
