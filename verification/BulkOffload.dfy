/**
 Handing the rest of a bulk write over to the async ingestion process: classify the items,
 write a spill file, enqueue a job, and undo the file when no job can be reading it.

 Storage, the process queue and every way they can fail come from outside: `Fates` is one
 call's luck, `World` is what the call leaves behind.
 */
module BulkOffload {
  import opened Options
  import opened JsonValues
  import opened Rejections

  type Doc = map<string, Json>

  const SPILL_ID := "__dynastore_offload_id"
  const SAFE_MEMBERS := {"type", "id", "geometry", "properties", "valid_from", "valid_to"}

  // ---------------------------------------------------------------- classification

  function PropertiesSafe(p: Json): bool {
    p.JNull? ||
    (p.JObj? && forall k :: k in p.fields ==>
       IsScalar(p.fields[k]) || (p.fields[k].JObj? && forall m :: m in p.fields[k].fields ==> IsScalar(p.fields[k].fields[m])))
  }

  /** The normalised item when the ingestion reader can give it back, else nothing. */
  function Classify(item: Json): Option<Doc> {
    if !item.JObj? then None
    else
      var d := item.fields;
      if d.Keys - SAFE_MEMBERS != {} then None
      else if !(Get(d, "id").JStr? || Get(d, "id").JInt? || Get(d, "id").JBool?) then None
      else if !(Get(d, "geometry").JNull? || Get(d, "geometry").JObj?) then None
      else if !PropertiesSafe(Get(d, "properties")) then None
      else Some(d)
  }

  /** What the reader gives back as it was: no lists, and objects only one level deep. */
  predicate GivenBack(v: Json) {
    match v
    case JList(_) => false
    case JObj(fields) => forall m :: m in fields ==> !fields[m].JList? && !fields[m].JObj?
    case _ => true
  }

  /** Exactly the plain features are taken: nothing but a feature's own members, an identity, a shape or none, plain properties. */
  lemma ClassifyIff(item: Json)
    ensures Classify(item).Some? <==>
            && item.JObj?
            && (forall k :: k in item.fields ==>
                  k == "type" || k == "id" || k == "geometry" || k == "properties" || k == "valid_from" || k == "valid_to")
            && "id" in item.fields && (item.fields["id"].JStr? || item.fields["id"].JInt? || item.fields["id"].JBool?)
            && ("geometry" in item.fields ==> item.fields["geometry"].JNull? || item.fields["geometry"].JObj?)
            && ("properties" in item.fields ==>
                  || item.fields["properties"].JNull?
                  || (item.fields["properties"].JObj? &&
                      var ps := item.fields["properties"].fields; forall k :: k in ps ==> GivenBack(ps[k])))
    ensures Classify(item).Some? ==> Classify(item).value == item.fields
  {
    if item.JObj? {
      var d := item.fields;
      assert d.Keys - SAFE_MEMBERS == {} <==> forall k :: k in d ==> k in SAFE_MEMBERS;
      if Get(d, "properties").JObj? {
        PlainIff(Get(d, "properties"));
      }
    }
  }

  lemma PlainIff(p: Json)
    requires p.JObj?
    ensures PropertiesSafe(p) <==> forall k :: k in p.fields ==> GivenBack(p.fields[k])
  {
  }

  // ---------------------------------------------------------------- the spill file and its reader

  /** One feature of the spill file. */
  datatype Feature = Feature(id: Json, geometry: Json, properties: Doc)
  type Body = seq<Feature>

  /** `data.get("properties") or {}`. */
  function PropertiesOf(d: Doc): Doc {
    if Get(d, "properties").JObj? then Get(d, "properties").fields else map[]
  }

  function Spill(repr: Json -> string, d: Doc): Feature {
    Feature(Get(d, "id"), Get(d, "geometry"), PropertiesOf(d)[SPILL_ID := JStr(PyStr(repr, Get(d, "id")))])
  }

  function SpillBody(repr: Json -> string, docs: seq<Doc>): (b: Body)
    ensures |b| == |docs| && forall i :: 0 <= i < |docs| ==> b[i] == Spill(repr, docs[i])
  {
    seq(|docs|, i requires 0 <= i < |docs| => Spill(repr, docs[i]))
  }

  /**
   What the ingestion process makes of a spilled feature: identity from the reserved
   property, a content hash when that is empty, no geometry when it is empty, and all
   properties, the reserved one included.  A property the reader does not give back as it was
   comes back as anything: `drift` says what.
   */
  datatype Prepared = Prepared(id: string, geometry: Json, properties: Doc)

  function ReadBack(drift: Json -> Json, properties: Doc): Doc {
    map k | k in properties :: if GivenBack(properties[k]) then properties[k] else drift(properties[k])
  }

  function Prepare(digest: (Json, Doc) -> string, drift: Json -> Json, f: Feature): Prepared {
    var geometry := if f.geometry == JObj(map[]) then JNull else f.geometry;
    var properties := ReadBack(drift, f.properties);
    var given := Get(properties, SPILL_ID);
    Prepared(if given.JStr? && given.s != "" then given.s else "sha256:" + digest(geometry, properties),
             geometry, properties)
  }

  /** The prepared record says all the submitted item said, and the same, the reserved property aside. */
  ghost predicate SameItem(p: Prepared, d: Doc) {
    && Get(d, "id") == JStr(p.id)
    && p.geometry == Get(d, "geometry")
    && p.properties - {SPILL_ID} == PropertiesOf(d)
    && forall k :: k in d ==> k == "type" || k == "id" || k == "geometry" || k == "properties"
  }

  /** What was classified as safe comes back as it was, whatever the reader does to the rest. */
  lemma SafePropertiesReadBack(repr: Json -> string, drift: Json -> Json, item: Json)
    requires Classify(item).Some?
    ensures ReadBack(drift, Spill(repr, Classify(item).value).properties) == Spill(repr, Classify(item).value).properties
  {
    var d := Classify(item).value;
    ClassifyIff(item);
    var spilled := Spill(repr, d).properties;
    forall k | k in spilled
      ensures GivenBack(spilled[k])
    {
      if k != SPILL_ID {
        assert k in PropertiesOf(d);
      }
    }
  }

  /**
   Deferring an item writes the same item as writing it inline, if and only if its id is a
   non-empty string, its geometry is not an empty object, it does not use the reserved
   property and it carries no validity interval.  The classifier checks none of these.
   */
  lemma SpillRoundTripIff(repr: Json -> string, digest: (Json, Doc) -> string, drift: Json -> Json, item: Json)
    requires Classify(item).Some?
    ensures var d := Classify(item).value;
            SameItem(Prepare(digest, drift, Spill(repr, d)), d) <==>
            && Get(d, "id").JStr? && Get(d, "id").s != ""
            && Get(d, "geometry") != JObj(map[])
            && SPILL_ID !in PropertiesOf(d)
            && "valid_from" !in d && "valid_to" !in d
    ensures SPILL_ID in Prepare(digest, drift, Spill(repr, Classify(item).value)).properties
  {
    var d := Classify(item).value;
    var props := PropertiesOf(d);
    var p := Prepare(digest, drift, Spill(repr, d));
    ClassifyIff(item);
    SafePropertiesReadBack(repr, drift, item);
    if SPILL_ID !in props {
      assert p.properties - {SPILL_ID} == props;
    } else {
      assert SPILL_ID !in p.properties - {SPILL_ID};
    }
    if Get(d, "id") == JStr("") {
      assert p.id == "sha256:" + digest(p.geometry, p.properties);
      assert |p.id| > 0;
    }
  }

  // ---------------------------------------------------------------- the outside world

  datatype Job = Job(id: Option<string>, path: string, dedupKey: string)

  /** Durable storage and the process queue; `inFlight` holds the dedup keys of unfinished jobs. */
  class World {
    var files: map<string, Body>
    var jobs: seq<Job>
    var inFlight: set<string>
    constructor ()
      ensures files == map[] && jobs == [] && inFlight == {}
    { files, jobs, inFlight := map[], [], {}; }
  }

  datatype BasePath = PathRaises | NoPath | PathIs(path: string)

  /** One call's luck.  `jobId` is what can be read off a non-null `execute_process` result. */
  datatype Fates = Fates(
    hasStorage: bool, basePath: BasePath, uploadWorks: bool, hasDb: bool, enqueueWorks: bool,
    jobId: Option<string>, deleteWorks: bool, uuid: string)

  function RStripSlash(s: string): (r: string)
    ensures r <= s && (r == "" || r[|r| - 1] != '/') && forall i :: |r| <= i < |s| ==> s[i] == '/'
  {
    if s != "" && s[|s| - 1] == '/' then RStripSlash(s[..|s| - 1]) else s
  }

  function SpillPath(base: string, uuid: string): string {
    RStripSlash(base) + "/_sync_offload/" + uuid + ".geojson"
  }

  /** Whatever the base paths, two spill files are the same only for the same uuid (all of one length, as hex uuids are). */
  lemma SpillPathsDiffer(base: string, one: string, base': string, two: string)
    requires |one| == |two|
    ensures SpillPath(base, one) == SpillPath(base', two) ==> one == two && RStripSlash(base) == RStripSlash(base')
  {
    var p, q := SpillPath(base, one), SpillPath(base', two);
    if p == q {
      var m, n := |RStripSlash(base)|, |RStripSlash(base')|;
      assert m == n;
      assert RStripSlash(base) == p[..m] && RStripSlash(base') == q[..n];
      assert one == p[m + 15..m + 15 + |one|] && two == q[n + 15..n + 15 + |two|];
    }
  }

  /** Content-derived, so a retry of the same remainder has the same key whatever path it spills to. */
  function DedupKey(hash: Body -> string, catalog: string, coll: string, body: Body): string {
    "sync_ingest_offload:" + catalog + ":" + coll + ":" + hash(body)
  }

  lemma SameFront(a: string, b: string, front: string, back: string)
    ensures front + a + back == front + b + back ==> a == b
  {
    if front + a + back == front + b + back {
      assert |a| == |b|;
      assert a == (front + a + back)[|front|..|front| + |a|] && b == (front + b + back)[|front|..|front| + |b|];
    }
  }

  /** For one collection, two remainders share a key exactly when their contents hash alike; no other catalog's is the same. */
  lemma DedupKeySeparates(hash: Body -> string, catalog: string, other: string, coll: string, one: Body, two: Body)
    ensures DedupKey(hash, catalog, coll, one) == DedupKey(hash, catalog, coll, two) <==> hash(one) == hash(two)
    ensures DedupKey(hash, catalog, coll, one) == DedupKey(hash, other, coll, one) <==> catalog == other
    ensures DedupKey(hash, catalog, coll, one) == DedupKey(hash, catalog, other, one) <==> coll == other
  {
    var key := DedupKey(hash, catalog, coll, one);
    SameFront(hash(one), hash(two), "sync_ingest_offload:" + catalog + ":" + coll + ":", "");
    SameFront(catalog, other, "sync_ingest_offload:", ":" + coll + ":" + hash(one));
    SameFront(coll, other, "sync_ingest_offload:" + catalog + ":", ":" + hash(one));
    assert key == "sync_ingest_offload:" + catalog + (":" + coll + ":" + hash(one));
    assert DedupKey(hash, other, coll, one) == "sync_ingest_offload:" + other + (":" + coll + ":" + hash(one));
    assert key == "sync_ingest_offload:" + catalog + ":" + coll + (":" + hash(one));
    assert DedupKey(hash, catalog, other, one) == "sync_ingest_offload:" + catalog + ":" + other + (":" + hash(one));
    assert forall x: string :: x + "" == x;
  }

  datatype Spilled = Raised(why: string) | Duplicate | Enqueued(jobId: string, monitorUrl: string)

  /** The upload is reached at all. */
  predicate Uploads(f: Fates) {
    f.hasStorage && f.basePath.PathIs? && f.basePath.path != "" && f.uploadWorks
  }

  /** `execute_process` was called and answered, rather than raising. */
  predicate QueueAnswers(f: Fates) { Uploads(f) && f.hasDb && f.enqueueWorks }

  /** Every file in storage has a job to read it, and every job has its file. */
  ghost predicate Tidy(files: map<string, Body>, jobs: seq<Job>) {
    && (forall p :: p in files ==> exists j :: 0 <= j < |jobs| && jobs[j].path == p)
    && (forall j :: 0 <= j < |jobs| ==> jobs[j].path in files)
  }

  lemma TidyWithOneMore(files: map<string, Body>, jobs: seq<Job>, job: Job, body: Body)
    requires Tidy(files, jobs)
    ensures Tidy(files[job.path := body], jobs + [job])
  {
    var more, stored := jobs + [job], files[job.path := body];
    forall p | p in stored
      ensures exists j :: 0 <= j < |more| && more[j].path == p
    {
      if p == job.path {
        assert more[|jobs|].path == p;
      } else {
        var j :| 0 <= j < |jobs| && jobs[j].path == p;
        assert more[j].path == p;
      }
    }
  }

  /** A call whose file is new and whose deletes work. */
  predicate CleanCall(f: Fates, files: map<string, Body>) {
    f.deleteWorks && (f.basePath.PathIs? ==> SpillPath(f.basePath.path, f.uuid) !in files)
  }

  /**
   `_spill_and_enqueue`: everything it can do to storage and queue, by case.  A file is left
   exactly when the queue took the work, or when the best-effort delete failed.
   */
  method SpillAndEnqueue(w: World, catalog: string, coll: string, body: Body, hash: Body -> string, f: Fates)
      returns (r: Spilled)
    modifies w
    ensures var key := DedupKey(hash, catalog, coll, body);
            var takes := QueueAnswers(f) && key !in old(w.inFlight);
            && (r.Enqueued? <==> takes && f.jobId.Some?)
            && (r.Duplicate? <==> QueueAnswers(f) && key in old(w.inFlight))
            && (r.Enqueued? ==> Some(r.jobId) == f.jobId)
            && w.jobs == (if takes then old(w.jobs) + [Job(f.jobId, SpillPath(f.basePath.path, f.uuid), key)] else old(w.jobs))
            && w.inFlight == (if takes then old(w.inFlight) + {key} else old(w.inFlight))
            && w.files ==
               (if !Uploads(f) then old(w.files)
                else if takes || !f.deleteWorks then old(w.files)[SpillPath(f.basePath.path, f.uuid) := body]
                else old(w.files) - {SpillPath(f.basePath.path, f.uuid)})
    // over any number of such calls: no file without a reader, no reader without a file
    ensures CleanCall(f, old(w.files)) && Tidy(old(w.files), old(w.jobs)) ==> Tidy(w.files, w.jobs)
  {
    if !f.hasStorage {
      return Raised("StorageProtocol not available for bulk-offload spill.");
    }
    if f.basePath.PathRaises? {
      return Raised("storage path lookup failed");
    }
    if f.basePath.NoPath? || f.basePath.path == "" {
      return Raised("No storage path resolved");
    }
    if !f.uploadWorks {
      return Raised("upload failed");
    }
    var target := SpillPath(f.basePath.path, f.uuid);
    assert target !in w.files ==> w.files[target := body] - {target} == w.files;
    if Tidy(w.files, w.jobs) {
      TidyWithOneMore(w.files, w.jobs, Job(f.jobId, target, DedupKey(hash, catalog, coll, body)), body);
    }
    w.files := w.files[target := body];
    r := EnqueueSpilled(w, catalog, coll, target, DedupKey(hash, catalog, coll, body), f);
  }

  /** With the file in storage: enqueue the job that reads it, or take the file back where no job can. */
  method EnqueueSpilled(w: World, catalog: string, coll: string, target: string, key: string, f: Fates) returns (r: Spilled)
    modifies w
    ensures var answers := f.hasDb && f.enqueueWorks;
            var takes := answers && key !in old(w.inFlight);
            && (r.Enqueued? <==> takes && f.jobId.Some?)
            && (r.Duplicate? <==> answers && key in old(w.inFlight))
            && (r.Enqueued? ==> Some(r.jobId) == f.jobId)
            && w.jobs == (if takes then old(w.jobs) + [Job(f.jobId, target, key)] else old(w.jobs))
            && w.inFlight == (if takes then old(w.inFlight) + {key} else old(w.inFlight))
            && w.files == if takes || !f.deleteWorks then old(w.files) else old(w.files) - {target}
  {
    if !f.hasDb || !f.enqueueWorks {
      DeleteBestEffort(w, target, f.deleteWorks);
      return Raised("enqueue failed");
    }
    if key in w.inFlight {
      DeleteBestEffort(w, target, f.deleteWorks);
      return Duplicate;
    }
    w.jobs := w.jobs + [Job(f.jobId, target, key)];
    w.inFlight := w.inFlight + {key};
    if f.jobId.None? {
      return Raised("ingestion process execution returned no job id.");
    }
    return Enqueued(f.jobId.value,
                    "/processes/catalogs/" + catalog + "/collections/" + coll + "/jobs/" + f.jobId.value);
  }

  method DeleteBestEffort(w: World, path: string, works: bool)
    modifies w`files
    ensures w.files == if works then old(w.files) - {path} else old(w.files)
  {
    if works {
      w.files := w.files - {path};
    }
  }

  // ---------------------------------------------------------------- the four outcomes

  /** `BulkOffloadOutcome`. */
  datatype Outcome = Outcome(
    jobId: Option<string>, monitorUrl: Option<string>, count: nat, rejections: seq<Rejection>,
    shapeUnsupported: bool, dedupHit: bool)
  {
    predicate IsSuccess() { jobId.Some? }
    predicate IsFailure() { jobId.None? && !shapeUnsupported && !dedupHit }
  }

  /** Best-effort identity for a rejection record. */
  function Identity(repr: Json -> string, item: Json): Option<string> {
    if item.JObj? && !Get(item.fields, "id").JNull? then Some(PyStr(repr, Get(item.fields, "id"))) else None
  }

  /** An item is named by its id's own text, if it has one. */
  lemma IdentityIs(repr: Json -> string, item: Json)
    ensures item.JObj? && "id" in item.fields && item.fields["id"].JStr? ==> Identity(repr, item) == Some(item.fields["id"].s)
    ensures item.JObj? && "id" in item.fields && item.fields["id"].JInt? ==> Identity(repr, item) == Some(IntText(item.fields["id"].n))
    ensures Identity(repr, item).None? <==> !item.JObj? || "id" !in item.fields || item.fields["id"] == JNull
  {
  }

  function RejectAll(repr: Json -> string, items: seq<Json>, policySource: string, reason: string, message: string): (rs: seq<Rejection>)
    ensures |rs| == |items|
    ensures forall i :: 0 <= i < |items| ==> rs[i].externalId == Identity(repr, items[i]) && rs[i].reason == reason
  {
    seq(|items|, i requires 0 <= i < |items| =>
      Rejection(None, Identity(repr, items[i]), None, None, reason, message, policySource))
  }

  /** The documents of a remainder all of whose items can be spilled. */
  function Docs(items: seq<Json>): seq<Doc>
    requires forall i :: 0 <= i < |items| ==> Classify(items[i]).Some?
  {
    seq(|items|, i requires 0 <= i < |items| => Classify(items[i]).value)
  }

  ghost predicate AllSpillable(items: seq<Json>) {
    forall i :: 0 <= i < |items| ==> Classify(items[i]).Some?
  }

  /**
   `offload_bulk_remainder`, in every environment.  A job is reported only after the whole
   remainder is in storage and its job in the queue, and then for all of it; an unsupported
   shape touches nothing; a failure names every item once, in order; nothing of an earlier
   upload is overwritten except under this call's own path.
   */
  method OffloadBulkRemainder(w: World, catalog: string, coll: string, items: seq<Json>, policySource: string,
                              repr: Json -> string, hash: Body -> string, f: Fates) returns (o: Outcome)
    modifies w
    ensures items == [] ==> o == Outcome(None, None, 0, [], false, false)
    // exactly one of four outcomes, and which one
    ensures o.shapeUnsupported <==> !AllSpillable(items)
    ensures o.shapeUnsupported || items == [] ==>
              o.count == 0 && o.rejections == [] && o.jobId.None? && !o.dedupHit &&
              w.files == old(w.files) && w.jobs == old(w.jobs) && w.inFlight == old(w.inFlight)
    ensures items != [] && AllSpillable(items) ==>
              var body := SpillBody(repr, Docs(items));
              var key := DedupKey(hash, catalog, coll, body);
              && (o.dedupHit <==> QueueAnswers(f) && key in old(w.inFlight))
              && (o.IsSuccess() <==> QueueAnswers(f) && key !in old(w.inFlight) && f.jobId.Some?)
              && (QueueAnswers(f) && key !in old(w.inFlight) ==>
                    w.jobs == old(w.jobs) + [Job(f.jobId, SpillPath(f.basePath.path, f.uuid), key)] &&
                    w.inFlight == old(w.inFlight) + {key})
              && (!(QueueAnswers(f) && key !in old(w.inFlight)) ==> w.jobs == old(w.jobs) && w.inFlight == old(w.inFlight))
    // success: spilled and enqueued, for every item
    ensures o.IsSuccess() ==>
              && AllSpillable(items) && o.count == |items| > 0 && o.rejections == []
              && exists path :: && w.files == old(w.files)[path := SpillBody(repr, Docs(items))]
                                && w.jobs == old(w.jobs) + [Job(o.jobId, path, DedupKey(hash, catalog, coll, SpillBody(repr, Docs(items))))]
    // failure: one rejection per item, in order
    ensures items != [] && o.IsFailure() ==>
              && o.count == 0 && |o.rejections| == |items|
              && forall i :: 0 <= i < |items| ==>
                   o.rejections[i].externalId == Identity(repr, items[i]) && o.rejections[i].reason == "async_offload_failed"
    // a spill file stays only with a job to read it, or where deleting it failed
    ensures w.jobs == old(w.jobs) && f.deleteWorks ==> forall p :: p in w.files ==> p in old(w.files) && w.files[p] == old(w.files)[p]
    ensures CleanCall(f, old(w.files)) && Tidy(old(w.files), old(w.jobs)) ==> Tidy(w.files, w.jobs)
  {
    if items == [] {
      return Outcome(None, None, 0, [], false, false);
    }
    var normalized: seq<Doc> := [];
    var n := 0;
    while n < |items|
      invariant 0 <= n <= |items| && AllSpillable(items[..n])
      invariant normalized == Docs(items[..n])
      invariant w.files == old(w.files) && w.jobs == old(w.jobs) && w.inFlight == old(w.inFlight)
    {
      var safe := Classify(items[n]);
      if safe.None? {
        return Outcome(None, None, 0, [], true, false);
      }
      normalized := normalized + [safe.value];
      assert items[..n + 1] == items[..n] + [items[n]];
      n := n + 1;
    }
    assert items[..n] == items;
    var spilled := SpillAndEnqueue(w, catalog, coll, SpillBody(repr, normalized), hash, f);
    match spilled
    case Raised(why) =>
      return Outcome(None, None, 0,
                     RejectAll(repr, items, policySource, "async_offload_failed",
                               "Failed to defer to the async ingestion process: " + why),
                     false, false);
    case Duplicate =>
      return Outcome(None, None, 0, [], false, true);
    case Enqueued(jobId, monitorUrl) =>
      return Outcome(Some(jobId), Some(monitorUrl), |items|, [], false, false);
  }

  /**
   A client retry of the same remainder while its job is unfinished: whatever the second
   call's luck, it enqueues no second job, and a queue that answers makes it a dedup hit.
   */
  method RetryIsDeduplicated(w: World, catalog: string, coll: string, items: seq<Json>, policySource: string,
                             repr: Json -> string, hash: Body -> string, first: Fates, second: Fates)
      returns (one: Outcome, two: Outcome)
    modifies w
    ensures one.IsSuccess() ==> |w.jobs| == |old(w.jobs)| + 1
    ensures one.IsSuccess() ==> !two.IsSuccess()
    ensures one.IsSuccess() && QueueAnswers(second) ==> two.dedupHit
  {
    one := OffloadBulkRemainder(w, catalog, coll, items, policySource, repr, hash, first);
    two := OffloadBulkRemainder(w, catalog, coll, items, policySource, repr, hash, second);
  }
}
