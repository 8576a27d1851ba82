/** The files of a collection directory, and what `load_collection` and `recover_collection` make of them. */
module Snapshot {
  import opened Base
  import opened WalReplay
  import opened WalFormat
  import opened PointInTime

  /** The bytes of a points file: bincode or JSON lines. The two never coincide, and each decodes back. */
  datatype Image =
    | Binary(points: seq<Point>)
    | JsonLines(points: seq<Point>)

  /**
   * The durable files. The checksum file holds a digest; hashing is taken to be collision-free,
   * so the digest is kept as the image it was computed from. `index.bin` and
   * `last_snapshot_timestamp` do not influence recovery.
   */
  datatype Disk = Disk(
    config: bool,
    bin: Option<seq<Point>>,
    jsonl: Option<seq<Point>>,
    checksum: Option<Image>,
    log: seq<Byte>)

  datatype Env = Env(codec: Codec, accepts: Checks)

  ghost predicate Accepted(ps: seq<Point>, accepts: Checks) {
    forall i :: 0 <= i < |ps| ==> accepts(ps[i])
  }

  /** Later points replace earlier ones of the same id. */
  function FromPoints(ps: seq<Point>): Store {
    if ps == [] then map[]
    else FromPoints(ps[..|ps| - 1])[ps[|ps| - 1].id := ps[|ps| - 1]]
  }

  /** The points file that is read: `points.bin` wins whenever it exists. */
  function LoadedImage(d: Disk): Option<Image> {
    match d.bin
    case Some(ps) => Some(Binary(ps))
    case None =>
      match d.jsonl
      case Some(ps) => Some(JsonLines(ps))
      case None => None
  }

  predicate ChecksumMatches(d: Disk) {
    LoadedImage(d).Some? && d.checksum.Some? ==> d.checksum == LoadedImage(d)
  }

  /** `FileStorage::load_collection`: integrity check, then a rebuild of the index that rejects bad points. */
  ghost function Load(d: Disk, env: Env): Result<Store, Error> {
    if !ChecksumMatches(d) then Err(Storage("integrity check failed"))
    else
      match LoadedImage(d)
      case None => Ok(map[])
      case Some(image) =>
        if Accepted(image.points, env.accepts) then Ok(FromPoints(image.points)) else Err(InvalidVector)
  }

  /** `recover_collection`. */
  ghost function Recover(d: Disk, env: Env): Result<Option<Store>, Error> {
    if !d.config then Ok(None)
    else
      match Load(d, env)
      case Err(x) => Err(x)
      case Ok(s) =>
        match ReadEntries(env.codec, d.log)
        case Err(x) => Err(x)
        case Ok(es) => Ok(Some(Replay(s, Operations(es), env.accepts)))
  }

  /** With a readable log, recovery is the replay of its entries on the snapshot, or the snapshot's refusal. */
  lemma {:induction false} RecoversFrom(d: Disk, es: seq<Entry>, env: Env)
    requires d.config && ReadEntries(env.codec, d.log) == Ok(es)
    ensures Load(d, env).Ok? ==> Recover(d, env) == Ok(Some(Replay(Load(d, env).value, Operations(es), env.accepts)))
    ensures Recover(d, env).Err? <==> Load(d, env).Err?
  {
  }

  /** `points_owned`: the values of the map, in no particular order. */
  ghost predicate ListsStore(image: seq<Point>, s: Store) {
    && |image| == |s|
    && (forall p :: p in image ==> p.id in s && s[p.id] == p)
    && (forall id :: id in s ==> s[id] in image)
  }

  lemma {:induction false} FromPointsAgrees(ps: seq<Point>, s: Store)
    requires forall p :: p in ps ==> p.id in s && s[p.id] == p
    ensures forall id :: id in FromPoints(ps) ==> id in s && FromPoints(ps)[id] == s[id]
    ensures forall p :: p in ps ==> p.id in FromPoints(ps)
  {
    if ps != [] {
      FromPointsAgrees(ps[..|ps| - 1], s);
      assert ps == ps[..|ps| - 1] + [ps[|ps| - 1]];
    }
  }

  /** A saved listing of a store loads back as that store, whatever the order. */
  lemma {:induction false} ListingLoadsBack(image: seq<Point>, s: Store)
    requires WellKeyed(s) && ListsStore(image, s)
    ensures FromPoints(image) == s
  {
    FromPointsAgrees(image, s);
    forall id | id in s
      ensures id in FromPoints(image)
    {
      assert s[id] in image && s[id].id == id;
    }
  }
}
