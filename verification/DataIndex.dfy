/** The per-pool index of the data pallet agrees with the primary map, and batches compose. */
module DataIndex {
  import opened Widths
  import opened DataSpec

  // ----- Batches compose -----

  lemma DistinctConcat(a: seq<Cid>, b: seq<Cid>)
    ensures Distinct(a + b) <==> Distinct(a) && Distinct(b) && forall c :: c in a ==> c !in b
  {
    if Distinct(a + b) {
      forall i, j | 0 <= i < j < |a| ensures a[i] != a[j] {
        assert (a + b)[i] == a[i] && (a + b)[j] == a[j];
      }
      forall i, j | 0 <= i < j < |b| ensures b[i] != b[j] {
        assert (a + b)[|a| + i] == b[i] && (a + b)[|a| + j] == b[j];
      }
      forall i, j | 0 <= i < |a| && 0 <= j < |b| ensures a[i] != b[j] {
        assert (a + b)[i] == a[i] && (a + b)[|a| + j] == b[j];
      }
    }
    if Distinct(a) && Distinct(b) && forall c :: c in a ==> c !in b {
      forall i, j | 0 <= i < j < |a + b| ensures (a + b)[i] != (a + b)[j] {
        if i < |a| <= j {
          assert a[i] in a && b[j - |a|] in b;
        }
      }
    }
  }

  lemma StoredAfter(s: State, uploader: AccountId, cids: seq<Cid>, p: PoolId, now: BlockNumber)
    ensures forall c :: c in Uploaded(s, uploader, cids, p, now).cids <==> c in s.cids || c in cids
    ensures Listed(Uploaded(s, uploader, cids, p, now), p) == Listed(s, p) + cids
    ensures forall q :: q != p ==> Listed(Uploaded(s, uploader, cids, p, now), q) == Listed(s, q)
  {
  }

  lemma AcceptableConcat(cfg: Config, s: State, uploader: AccountId, a: seq<Cid>, b: seq<Cid>, p: PoolId, now: BlockNumber)
    ensures Acceptable(cfg, s, a + b, p)
            <==> Acceptable(cfg, s, a, p) && Acceptable(cfg, Uploaded(s, uploader, a, p, now), b, p)
  {
    var t := Uploaded(s, uploader, a, p, now);
    DistinctConcat(a, b);
    StoredAfter(s, uploader, a, p, now);
    if Acceptable(cfg, s, a + b, p) {
      forall i | 0 <= i < |a| ensures |a[i]| <= cfg.maxCidLength && a[i] !in s.cids {
        assert (a + b)[i] == a[i];
      }
      forall i | 0 <= i < |b| ensures |b[i]| <= cfg.maxCidLength && b[i] !in t.cids {
        assert (a + b)[|a| + i] == b[i];
      }
    }
    if Acceptable(cfg, s, a, p) && Acceptable(cfg, t, b, p) {
      forall i | 0 <= i < |b| ensures b[i] !in a {
        assert b[i] !in t.cids;
      }
    }
  }

  lemma UploadedConcat(s: State, uploader: AccountId, a: seq<Cid>, b: seq<Cid>, p: PoolId, now: BlockNumber)
    requires forall c :: c in b ==> c !in a
    ensures Uploaded(s, uploader, a + b, p, now) == Uploaded(Uploaded(s, uploader, a, p, now), uploader, b, p, now)
  {
    if a == [] {
      assert a + b == b;
    } else if b == [] {
      assert a + b == a;
    } else {
      assert Listed(s, p) + (a + b) == Listed(s, p) + a + b;
      assert Records(uploader, a + b, p, now) == Records(uploader, a, p, now) + Records(uploader, b, p, now);
      assert s.cids + Records(uploader, a + b, p, now) == s.cids + Records(uploader, a, p, now) + Records(uploader, b, p, now);
      assert s.byPool[p := Listed(s, p) + a][p := Listed(s, p) + a + b] == s.byPool[p := Listed(s, p) + a + b];
    }
  }

  /** Uploading a concatenation is uploading the parts one after the other: it succeeds
      exactly when both do, and ends in the same storage. */
  lemma UploadConcat(cfg: Config, s: State, uploader: AccountId, a: seq<Cid>, b: seq<Cid>, p: PoolId, now: BlockNumber)
    ensures var first := Apply(cfg, s, UploadCids(uploader, a, p, now));
            var whole := Apply(cfg, s, UploadCids(uploader, a + b, p, now));
            && (whole.Done? <==> first.Done? && Apply(cfg, first.post, UploadCids(uploader, b, p, now)).Done?)
            && (whole.Done? ==> whole == Apply(cfg, first.post, UploadCids(uploader, b, p, now)))
  {
    AcceptableConcat(cfg, s, uploader, a, b, p, now);
    DistinctConcat(a, b);
    if Acceptable(cfg, s, a + b, p) {
      UploadedConcat(s, uploader, a, b, p, now);
    }
  }

  // ----- The index over runs -----

  /** The cids of the successful uploads to a pool, in the order of the calls. */
  ghost function UploadsTo(cfg: Config, calls: seq<Call>, p: PoolId): seq<Cid> {
    if calls == [] then []
    else
      var front, last := calls[..|calls| - 1], calls[|calls| - 1];
      UploadsTo(cfg, front, p)
      + if last.pool == p && Apply(cfg, Run(cfg, front), last).Done? then last.cids else []
  }

  /** Lists and records name the same cids for a pool. */
  ghost predicate IndexMatches(s: State) {
    forall p, c :: c in Listed(s, p) <==> c in s.cids && s.cids[c].pool == p
  }

  ghost predicate ListsSound(cfg: Config, s: State) {
    forall p :: Distinct(Listed(s, p)) && |Listed(s, p)| <= cfg.maxCidLength
  }

  ghost predicate RecordsSound(cfg: Config, s: State) {
    forall c :: c in s.cids ==> s.cids[c].cid == c && |c| <= cfg.maxCidLength
  }

  ghost predicate IndexAgrees(cfg: Config, s: State) {
    IndexMatches(s) && ListsSound(cfg, s) && RecordsSound(cfg, s)
  }

  lemma NewCids(cfg: Config, s: State, cids: seq<Cid>, p: PoolId)
    requires Acceptable(cfg, s, cids, p)
    ensures forall d :: d in cids ==> d !in s.cids && |d| <= cfg.maxCidLength
  {
  }

  lemma UploadMatches(s: State, uploader: AccountId, cids: seq<Cid>, p: PoolId, now: BlockNumber)
    requires IndexMatches(s) && cids != [] && forall d :: d in cids ==> d !in s.cids
    ensures IndexMatches(Uploaded(s, uploader, cids, p, now))
  {
    var t := Uploaded(s, uploader, cids, p, now);
    forall q, d ensures d in Listed(t, q) <==> d in t.cids && t.cids[d].pool == q {
      assert d in Listed(s, q) <==> d in s.cids && s.cids[d].pool == q;
      assert d in Listed(t, q) <==> d in Listed(s, q) || (q == p && d in cids);
    }
  }

  lemma UploadKeepsLists(cfg: Config, s: State, uploader: AccountId, cids: seq<Cid>, p: PoolId, now: BlockNumber)
    requires IndexMatches(s) && ListsSound(cfg, s) && Acceptable(cfg, s, cids, p)
    ensures ListsSound(cfg, Uploaded(s, uploader, cids, p, now))
  {
    NewCids(cfg, s, cids, p);
    StoredAfter(s, uploader, cids, p, now);
    DistinctConcat(Listed(s, p), cids);
  }

  lemma StepKeepsIndex(cfg: Config, s: State, c: Call)
    requires IndexAgrees(cfg, s)
    ensures IndexAgrees(cfg, Step(cfg, s, c))
  {
    if Acceptable(cfg, s, c.cids, c.pool) && c.cids != [] {
      NewCids(cfg, s, c.cids, c.pool);
      UploadMatches(s, c.uploader, c.cids, c.pool, c.now);
      UploadKeepsLists(cfg, s, c.uploader, c.cids, c.pool, c.now);
    }
  }

  lemma StepExtendsLists(cfg: Config, s: State, c: Call, p: PoolId)
    ensures Listed(Step(cfg, s, c), p)
            == Listed(s, p) + if c.pool == p && Apply(cfg, s, c).Done? then c.cids else []
  {
    StoredAfter(s, c.uploader, c.cids, c.pool, c.now);
  }

  /** After every run the list of a pool is the uploads to it in their order, names each cid
      recorded for the pool exactly once and nothing else, and respects the bounds. */
  lemma {:induction false} IndexIsHistory(cfg: Config, calls: seq<Call>)
    ensures IndexAgrees(cfg, Run(cfg, calls))
    ensures forall p :: Listed(Run(cfg, calls), p) == UploadsTo(cfg, calls, p)
  {
    if calls != [] {
      var front, last := calls[..|calls| - 1], calls[|calls| - 1];
      IndexIsHistory(cfg, front);
      StepKeepsIndex(cfg, Run(cfg, front), last);
      forall p ensures Listed(Run(cfg, calls), p) == UploadsTo(cfg, calls, p) {
        StepExtendsLists(cfg, Run(cfg, front), last, p);
      }
    }
  }

  /** What `get_cids_by_pool` answers after a run. */
  lemma ListedIs(cfg: Config, calls: seq<Call>, p: PoolId)
    ensures var s := Run(cfg, calls);
            && Listed(s, p) == UploadsTo(cfg, calls, p) && Distinct(Listed(s, p))
            && (forall c :: c in Listed(s, p) <==> c in s.cids && s.cids[c].pool == p)
  {
    IndexIsHistory(cfg, calls);
  }

  /** A record, once written, is never changed. */
  lemma {:induction false} RecordsPersist(cfg: Config, calls: seq<Call>, more: seq<Call>, c: Cid)
    requires c in Run(cfg, calls).cids
    ensures c in Run(cfg, calls + more).cids && Run(cfg, calls + more).cids[c] == Run(cfg, calls).cids[c]
    decreases |more|
  {
    if more == [] {
      assert calls + more == calls;
    } else {
      RecordsPersist(cfg, calls, more[..|more| - 1], c);
      assert (calls + more)[..|calls + more| - 1] == calls + more[..|more| - 1];
    }
  }
}
