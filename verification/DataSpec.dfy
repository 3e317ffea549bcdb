/** The storage of the data pallet and the meaning of an upload: a batch is taken as a whole
    or not at all. */
module DataSpec {
  import opened Widths

  type Cid = Bytes

  /** One constant bounds both the length of a cid and the number of cids listed for a pool. */
  datatype Config = Config(maxCidLength: nat)

  datatype CidInfo = CidInfo(cid: Cid, uploader: AccountId, pool: PoolId, timestamp: BlockNumber)

  datatype State = State(cids: map<Cid, CidInfo>, byPool: map<PoolId, seq<Cid>>)

  /** `Trapped` is the failing `expect` on the first list of a pool. */
  datatype Error = CidAlreadyExists | Trapped

  datatype Outcome = Done(post: State) | Failed(error: Error)

  datatype Call = UploadCids(uploader: AccountId, cids: seq<Cid>, pool: PoolId, now: BlockNumber)

  function Init(): State {
    State(map[], map[])
  }

  /** `get_cids_by_pool`. */
  function Listed(s: State, p: PoolId): seq<Cid> {
    if p in s.byPool then s.byPool[p] else []
  }

  ghost predicate Distinct(cids: seq<Cid>) {
    forall i, j :: 0 <= i < j < |cids| ==> cids[i] != cids[j]
  }

  /** The whole batch fits: each cid is short enough and new, no two are equal, and the
      pool's list has room for all of them. */
  ghost predicate Acceptable(cfg: Config, s: State, cids: seq<Cid>, p: PoolId) {
    && (forall i :: 0 <= i < |cids| ==> |cids[i]| <= cfg.maxCidLength && cids[i] !in s.cids)
    && Distinct(cids)
    && (cids != [] ==> |Listed(s, p)| + |cids| <= cfg.maxCidLength)
  }

  function Records(uploader: AccountId, cids: seq<Cid>, p: PoolId, now: BlockNumber): map<Cid, CidInfo> {
    map c | c in cids :: CidInfo(c, uploader, p, now)
  }

  function Uploaded(s: State, uploader: AccountId, cids: seq<Cid>, p: PoolId, now: BlockNumber): State {
    if cids == [] then s
    else State(s.cids + Records(uploader, cids, p, now), s.byPool[p := Listed(s, p) + cids])
  }

  /** Only a bound of zero can trap: the first list of a pool then has no room for one cid. */
  ghost predicate Traps(cfg: Config, s: State, cids: seq<Cid>, p: PoolId) {
    cfg.maxCidLength == 0 && cids != [] && cids[0] == [] && [] !in s.cids && p !in s.byPool
  }

  ghost function Apply(cfg: Config, s: State, c: Call): Outcome {
    if Acceptable(cfg, s, c.cids, c.pool) then Done(Uploaded(s, c.uploader, c.cids, c.pool, c.now))
    else Failed(if Traps(cfg, s, c.cids, c.pool) then Trapped else CidAlreadyExists)
  }

  ghost function Step(cfg: Config, s: State, c: Call): State {
    match Apply(cfg, s, c)
    case Done(post) => post
    case Failed(_) => s
  }

  ghost function Run(cfg: Config, calls: seq<Call>): State {
    if calls == [] then Init()
    else Step(cfg, Run(cfg, calls[..|calls| - 1]), calls[|calls| - 1])
  }
}
