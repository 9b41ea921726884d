/** `Cache` itself: parsed files checked by modification time, derived layers checked by age. */
module Cache {
  import opened Wrappers
  import opened Recency
  import opened LruTier

  const DEFAULT_FILE_CAP: nat := 50_000
  const DEFAULT_LAYER_CAP: nat := 200_000
  const SECOND: int := 1_000_000_000
  const DEFAULT_SEMANTIC_TTL: int := 5 * 60 * SECOND
  const DEFAULT_SUMMARY_TTL: int := 24 * 3600 * SECOND

  /** A parsed source file; two reads of one path with one modification time are the same value. */
  datatype SourceFile = SourceFile(path: string, content: string, mtime: int)

  datatype LayerKey = LayerKey(nodeId: string, layer: string)

  datatype LayerValue = LayerValue(bytes: string, ts: int)

  function Ttl(layer: string): int {
    if layer == "summary" then DEFAULT_SUMMARY_TTL else DEFAULT_SEMANTIC_TTL
  }

  function SameMTime(mtime: int): SourceFile -> bool {
    (f: SourceFile) => f.mtime == mtime
  }

  function Young(layer: string, now: int): LayerValue -> bool {
    (v: LayerValue) => now - v.ts <= Ttl(layer)
  }

  class Cache {
    const files: Tier<string, SourceFile>
    const layers: Tier<LayerKey, LayerValue>

    ghost predicate Valid()
      reads this, files, layers
    {
      && files.Valid() && layers.Valid()
      && forall e, l :: e in files.order && l in layers.order ==> e as object != l
    }

    constructor NewSized(fileCap: int, layerCap: int)
      ensures Valid() && fresh(files) && fresh(layers)
      ensures files.Contents() == [] && layers.Contents() == [] && files.order == [] && layers.order == []
      ensures files.cap == if fileCap <= 0 then 50_000 else fileCap
      ensures layers.cap == if layerCap <= 0 then 200_000 else layerCap
    {
      files := new Tier(if fileCap <= 0 then DEFAULT_FILE_CAP else fileCap);
      layers := new Tier(if layerCap <= 0 then DEFAULT_LAYER_CAP else layerCap);
    }

    /** The parsed file, unless it is absent or its modification time is another; a stale one is dropped. */
    method GetFile(path: string, currentMTime: int) returns (r: Option<SourceFile>)
      requires Valid()
      modifies files
      ensures Valid()
      ensures r == Hit(old(files.Contents()), path, SameMTime(currentMTime))
      ensures files.Contents() == AfterLookup(old(files.Contents()), path, SameMTime(currentMTime))
      ensures forall e :: e in files.order ==> e in old(files.order)
    {
      r := files.Get(path, SameMTime(currentMTime));
    }

    method PutFile(f: SourceFile)
      requires Valid()
      modifies files, files.order
      ensures Valid()
      ensures files.Contents() == AfterInsert(old(files.Contents()), f.path, f, files.cap)
      ensures layers.Contents() == old(layers.Contents())
      ensures forall e :: e in files.order ==> e in old(files.order) || fresh(e)
    {
      files.Put(f.path, f);
    }

    /** The layer's bytes, unless absent or older than the layer's time to live at `now`. */
    method GetLayer(nodeId: string, layer: string, now: int) returns (r: Option<string>)
      requires Valid()
      modifies layers
      ensures Valid()
      ensures r == match Find(old(layers.Contents()), LayerKey(nodeId, layer))
                   case Some(v) => if now - v.ts <= Ttl(layer) then Some(v.bytes) else None
                   case None => None
      // A summary lives for a day and every other layer for five minutes, in nanoseconds.
      ensures r.Some? <==>
        && Find(old(layers.Contents()), LayerKey(nodeId, layer)).Some?
        && now - Find(old(layers.Contents()), LayerKey(nodeId, layer)).value.ts <=
             if layer == "summary" then 86_400_000_000_000 else 300_000_000_000
      ensures layers.Contents() == AfterLookup(old(layers.Contents()), LayerKey(nodeId, layer), Young(layer, now))
    {
      var hit := layers.Get(LayerKey(nodeId, layer), Young(layer, now));
      match hit
      case None => r := None;
      case Some(v) => r := Some(v.bytes);
    }

    method PutLayer(nodeId: string, layer: string, value: string, now: int)
      requires Valid()
      modifies layers, layers.order
      ensures Valid()
      ensures layers.Contents() ==
        AfterInsert(old(layers.Contents()), LayerKey(nodeId, layer), LayerValue(value, now), layers.cap)
      ensures files.Contents() == old(files.Contents())
    {
      layers.Put(LayerKey(nodeId, layer), LayerValue(value, now));
    }
  }
}
