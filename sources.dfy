/** The two file sources of the importer: a local folder whose files are
    claimed and completed by renames, and a bucket whose objects are claimed
    and completed by copy-then-delete.  Each worker claims a listed name,
    imports its lines, and moves the claim to the processed name.  Workers
    run one after another here. */
module Sources {
  import opened Wrappers
  import opened Entities
  import opened Pipeline
  import opened Naming
  import Service

  /** What a worker did with one listed name. */
  datatype FileOutcome = NotClaimed | LeftClaimed | Completed

  /** A store of files or objects: lines by name. */
  type Store = map<string, seq<string>>

  /** The lines a reader gets from `content` when reading may stop with an
      error after `stop` lines; the flag says it did. */
  function ReadLines(content: seq<string>, stop: Option<nat>): (r: (seq<string>, bool))
    ensures r.1 <==> stop.Some? && stop.value < |content|
    ensures |r.0| <= |content| && r.0 == content[..|r.0|]
    ensures r.1 ==> |r.0| == stop.value
    ensures !r.1 ==> r.0 == content
  {
    if stop.Some? && stop.value < |content| then (content[..stop.value], true) else (content, false)
  }

  /** The names a worker ran for and what each one did. */
  function Unclaimed(outcomes: map<string, FileOutcome>): set<string>
  {
    set p | p in outcomes && outcomes[p].NotClaimed?
  }

  /** What the workers behind `outcomes` left, from `s0` to `s`, given the
      listings `listed0` before and `listed` after: a name not claimed is
      still there unchanged, a claimed one is gone, a completed one's lines
      sit under its processed name, and the handled names leave the listing
      exactly when they were claimed. */
  predicate Handled(s0: Store, s: Store, listed0: set<string>, listed: set<string>, outcomes: map<string, FileOutcome>)
  {
    && (forall p :: p in outcomes && outcomes[p].NotClaimed? ==> p in s0 && p in s && s[p] == s0[p])
    && (forall p :: p in outcomes && !outcomes[p].NotClaimed? ==> p !in s)
    && (forall p :: p in outcomes && outcomes[p].Completed? ==>
          p in s0 && ProcessedName(p) in s && s[ProcessedName(p)] == s0[p])
    && listed == listed0 - outcomes.Keys + Unclaimed(outcomes)
  }

  /** The state of a worker loop: the listed names split into those still
      pending, untouched, and those a worker has handled. */
  predicate Progress(s0: Store, s: Store, listed0: set<string>, listed: set<string>,
                     pending: set<string>, outcomes: map<string, FileOutcome>)
  {
    && pending !! outcomes.Keys
    && pending + outcomes.Keys == listed0
    && (forall p :: p in pending ==> p in s0 && p in s && s[p] == s0[p])
    && Handled(s0, s, listed0, listed, outcomes)
  }

  /** A worker on a pending name `p` that leaves every other listed name
      and its processed name alone, and does to `p` what its outcome says,
      keeps the loop's state. */
  lemma ProgressStep(s0: Store, s: Store, s': Store, listed0: set<string>, listed: set<string>, listed': set<string>,
                     pending: set<string>, outcomes: map<string, FileOutcome>, p: string, o: FileOutcome)
    requires Progress(s0, s, listed0, listed, pending, outcomes) && p in pending
    requires forall q :: q in listed0 && q != p ==>
      (q in s' <==> q in s) && (q in s ==> s'[q] == s[q]) &&
      (ProcessedName(q) in s ==> ProcessedName(q) in s' && s'[ProcessedName(q)] == s[ProcessedName(q)])
    requires o.NotClaimed? ==> p in s' && s'[p] == s[p]
    requires !o.NotClaimed? ==> p !in s'
    requires o.Completed? ==> p in s && ProcessedName(p) in s' && s'[ProcessedName(p)] == s[p]
    requires listed' == if o.NotClaimed? then listed else listed - {p}
    ensures Progress(s0, s', listed0, listed', pending - {p}, outcomes[p := o])
  {
    var outs := outcomes[p := o];
    forall q | q in pending - {p}
      ensures q in s0 && q in s' && s'[q] == s0[q]
    {
    }
    forall q | q in outs && outs[q].NotClaimed?
      ensures q in s0 && q in s' && s'[q] == s0[q]
    {
    }
    forall q | q in outs && !outs[q].NotClaimed?
      ensures q !in s'
    {
    }
    forall q | q in outs && outs[q].Completed?
      ensures q in s0 && ProcessedName(q) in s' && s'[ProcessedName(q)] == s0[q]
    {
    }
    ListedStep(listed0, listed, outcomes, p, o);
  }

  /** The names still listed after one more worker: its name drops out
      unless it was not claimed. */
  lemma ListedStep(listed0: set<string>, listed: set<string>, outcomes: map<string, FileOutcome>, p: string, o: FileOutcome)
    requires listed == listed0 - outcomes.Keys + Unclaimed(outcomes)
    requires p in listed0 && p !in outcomes
    ensures (if o.NotClaimed? then listed else listed - {p}) ==
      listed0 - outcomes[p := o].Keys + Unclaimed(outcomes[p := o])
  {
    var outs := outcomes[p := o];
    assert Unclaimed(outs) == if o.NotClaimed? then Unclaimed(outcomes) + {p} else Unclaimed(outcomes);
    assert outs.Keys == outcomes.Keys + {p};
  }

  /** For two different listed names, neither is a name derived from the
      other, and no name derived from one is one derived from the other. */
  lemma NamesApart(p: string, q: string)
    requires EndsWith(p, JlSuffix) && !EndsWith(p, ProcessedSuffix)
    requires EndsWith(q, JlSuffix) && !EndsWith(q, ProcessedSuffix)
    requires p != q
    ensures q != LocalClaimName(p) && q != BucketClaimKey(p) && q != ProcessedName(p) && ProcessedName(q) != p
    ensures ProcessedName(q) != LocalClaimName(p) && ProcessedName(q) != BucketClaimKey(p)
    ensures ProcessedName(q) != ProcessedName(p)
  {
    DerivedNamesNotListed(p);
    DerivedNamesNotListed(q);
    DerivedNamesInjective(p, q);
    ClaimIsNeverProcessed(p, q);
  }

  // ---------------------------------------------------------------- folder

  /** Files after a rename of `from` to `to` (replacing any file at `to`). */
  function Moved(fs: Store, from: string, to: string): Store
    requires from in fs
  {
    (fs - {from})[to := fs[from]]
  }

  /** The names a folder listing returns. */
  function LocalListing(fs: Store): set<string>
  {
    set n | n in fs && ListedLocally(n)
  }

  /** What a folder worker does to the files: rename `p` to its claim name,
      giving up when that fails; after the import, rename the claim to the
      processed name, leaving the claim when that fails. */
  function LocalWorker(fs: Store, p: string, renameFails: (string, string) -> bool): (r: (Store, FileOutcome))
    ensures r.0.Keys <= fs.Keys + {LocalClaimName(p), ProcessedName(p)}
    ensures r.1.NotClaimed? ==> r.0 == fs
    ensures r.1.Completed? ==> p in fs && ProcessedName(p) in r.0 && r.0[ProcessedName(p)] == fs[p]
  {
    var claim := LocalClaimName(p);
    if !(p in fs && !renameFails(p, claim)) then (fs, NotClaimed)
    else
      var claimed := Moved(fs, p, claim);
      if renameFails(claim, ProcessedName(p)) then (claimed, LeftClaimed)
      else (Moved(claimed, claim, ProcessedName(p)), Completed)
  }

  /** A folder worker on a listed name: it claims exactly when `p` exists
      and the rename goes through; a claimed name is gone afterwards and a
      second worker on it finds nothing to claim; a completed one's lines
      sit under its processed name and the claim is gone; one left claimed
      keeps its lines under its claim name. */
  lemma LocalWorkerSpec(fs: Store, p: string, renameFails: (string, string) -> bool)
    requires ListedLocally(p)
    ensures var (fs', o) := LocalWorker(fs, p, renameFails);
      && (o.NotClaimed? <==> !(p in fs && !renameFails(p, LocalClaimName(p))))
      && (o.NotClaimed? ==> fs' == fs)
      && (!o.NotClaimed? ==> p !in fs' && LocalWorker(fs', p, renameFails) == (fs', NotClaimed))
      && (o.LeftClaimed? ==> LocalClaimName(p) in fs' && fs'[LocalClaimName(p)] == fs[p])
      && (o.Completed? ==>
            ProcessedName(p) in fs' && fs'[ProcessedName(p)] == fs[p] && LocalClaimName(p) !in fs')
      && LocalListing(fs') == if o.NotClaimed? then LocalListing(fs) else LocalListing(fs) - {p}
  {
    DerivedNamesNotListed(p);
    DerivedNamesDistinct(p);
  }

  /** A folder worker on `p` touches no other listed name nor its processed
      name. */
  lemma LocalWorkerFrame(fs: Store, p: string, renameFails: (string, string) -> bool, q: string)
    requires ListedLocally(p) && ListedLocally(q) && q != p
    ensures var fs' := LocalWorker(fs, p, renameFails).0;
      && (q in fs' <==> q in fs) && (q in fs ==> fs'[q] == fs[q])
      && (ProcessedName(q) in fs ==> ProcessedName(q) in fs' && fs'[ProcessedName(q)] == fs[ProcessedName(q)])
  {
    NamesApart(p, q);
    var claim, done := LocalClaimName(p), ProcessedName(p);
    assert q != claim && q != done && ProcessedName(q) != p;
    assert ProcessedName(q) != claim && ProcessedName(q) != done;
  }

  /** One more folder worker keeps the loop's state. */
  lemma LocalStep(fs0: Store, fs: Store, renameFails: (string, string) -> bool,
                  pending: set<string>, outcomes: map<string, FileOutcome>, p: string)
    requires Progress(fs0, fs, LocalListing(fs0), LocalListing(fs), pending, outcomes) && p in pending
    ensures var (fs', o) := LocalWorker(fs, p, renameFails);
      Progress(fs0, fs', LocalListing(fs0), LocalListing(fs'), pending - {p}, outcomes[p := o])
  {
    var (fs', o) := LocalWorker(fs, p, renameFails);
    assert ListedLocally(p) && p in fs;
    LocalWorkerSpec(fs, p, renameFails);
    forall q | q in LocalListing(fs0) && q != p
      ensures (q in fs' <==> q in fs) && (q in fs ==> fs'[q] == fs[q])
      ensures ProcessedName(q) in fs ==> ProcessedName(q) in fs' && fs'[ProcessedName(q)] == fs[ProcessedName(q)]
    {
      LocalWorkerFrame(fs, p, renameFails, q);
    }
    ProgressStep(fs0, fs, fs', LocalListing(fs0), LocalListing(fs), LocalListing(fs'), pending, outcomes, p, o);
  }

  /** A local folder: its files by name, and the renames and reads that
      fail. */
  class Folder {
    var files: Store
    const renameFails: (string, string) -> bool
    const readStops: string -> Option<nat>

    constructor (files: Store, renameFails: (string, string) -> bool, readStops: string -> Option<nat>)
      ensures this.files == files && this.renameFails == renameFails && this.readStops == readStops
    {
      this.files, this.renameFails, this.readStops := files, renameFails, readStops;
    }

    /** `File.renameTo`: fails when the source is gone or the platform
        refuses. */
    method RenameTo(from: string, to: string) returns (ok: bool)
      modifies this
      ensures ok == (from in old(files) && !renameFails(from, to))
      ensures files == if ok then Moved(old(files), from, to) else old(files)
    {
      ok := from in files && !renameFails(from, to);
      if ok {
        files := Moved(files, from, to);
      }
    }

    /** One worker of `parseAndImportJLFolder`: claim `p`, import the lines
        of the claimed file, complete the claim.  The store sees the import
        of what could be read whenever the claim succeeded. */
    method ImportOne(svc: Service.ImportService, p: string) returns (o: FileOutcome)
      modifies this, svc
      ensures (files, o) == LocalWorker(old(files), p, renameFails)
      ensures o.NotClaimed? ==> svc.Store() == old(svc.Store())
      ensures Grows(old(svc.Store()), svc.Store())
      ensures !o.NotClaimed? ==>
        var (lines, fails) := ReadLines(old(files)[p], readStops(LocalClaimName(p)));
        svc.Store() == ImportFile(svc.env, old(svc.Store()), lines, fails).0
    {
      var claim := LocalClaimName(p);
      var claimed := RenameTo(p, claim);
      if !claimed {
        return NotClaimed;
      }
      var (lines, fails) := ReadLines(files[claim], readStops(claim));
      ghost var _ := svc.ParseAndImportJLFile(lines, fails);
      var done := RenameTo(claim, ProcessedName(p));
      return if done then Completed else LeftClaimed;
    }

    /** `parseAndImportJLFolder`: every listed name gets a worker. */
    method ImportFolder(svc: Service.ImportService) returns (outcomes: map<string, FileOutcome>)
      modifies this, svc
      ensures outcomes.Keys == LocalListing(old(files))
      ensures Handled(old(files), files, LocalListing(old(files)), LocalListing(files), outcomes)
      ensures Grows(old(svc.Store()), svc.Store())
    {
      var pending := LocalListing(files);
      outcomes := map[];
      assert Unclaimed(outcomes) == {};
      while pending != {}
        invariant Progress(old(files), files, LocalListing(old(files)), LocalListing(files), pending, outcomes)
        invariant Grows(old(svc.Store()), svc.Store())
        decreases |pending|
      {
        var p :| p in pending;
        LocalStep(old(files), files, renameFails, pending, outcomes, p);
        ghost var before := svc.Store();
        var o := ImportOne(svc, p);
        GrowsTransitive(old(svc.Store()), before, svc.Store());
        outcomes := outcomes[p := o];
        pending := pending - {p};
      }
    }
  }

  // ---------------------------------------------------------------- bucket

  /** Objects after a copy of `from` to `to` (replacing any object at `to`). */
  function Copied(objs: Store, from: string, to: string): Store
    requires from in objs
  {
    objs[to := objs[from]]
  }

  /** The keys a bucket listing under `prefix` returns. */
  function BucketListing(objs: Store, prefix: string): set<string>
  {
    set k | k in objs && |prefix| <= |k| && k[..|prefix|] == prefix && ListedInBucket(k)
  }

  /** The store calls of the bucket that fail. */
  datatype BucketFaults = BucketFaults(
    copyFails: (string, string) -> bool,
    deleteFails: string -> bool,
    downloadFails: string -> bool)

  /** What a bucket worker does to the objects: copy `key` to its claim key
      and delete `key`, giving up when either fails (a copy already made
      stays); then, unless the download fails, copy the claim to the
      processed key and delete the claim; a failure after the claim leaves
      it in place. */
  function BucketWorker(objs: Store, key: string, f: BucketFaults): (r: (Store, FileOutcome))
    ensures r.0.Keys <= objs.Keys + {BucketClaimKey(key), ProcessedName(key)}
    ensures r.1.Completed? ==> key in objs && ProcessedName(key) in r.0 && r.0[ProcessedName(key)] == objs[key]
  {
    var claim, done := BucketClaimKey(key), ProcessedName(key);
    if !(key in objs && !f.copyFails(key, claim)) then (objs, NotClaimed)
    else
      var copied := Copied(objs, key, claim);
      if f.deleteFails(key) then (copied, NotClaimed)
      else
        var claimed := copied - {key};
        if f.downloadFails(claim) || claim !in claimed || f.copyFails(claim, done) then (claimed, LeftClaimed)
        else
          var moved := Copied(claimed, claim, done);
          if f.deleteFails(claim) then (moved, LeftClaimed) else (moved - {claim}, Completed)
  }

  /** A bucket worker on a listed key: it claims exactly when the key exists
      and both the copy and the delete go through; a worker that did not
      claim leaves the key unchanged, but a stray claim copy behind when only
      the delete failed; a claimed key is gone afterwards; a completed one's
      lines sit under its processed key and the claim is gone; one left
      claimed keeps its lines under its claim key. */
  lemma BucketWorkerSpec(objs: Store, key: string, f: BucketFaults)
    requires ListedInBucket(key)
    ensures var (objs', o) := BucketWorker(objs, key, f);
      var claim := BucketClaimKey(key);
      && (o.NotClaimed? <==> !(key in objs && !f.copyFails(key, claim) && !f.deleteFails(key)))
      && (o.NotClaimed? ==> (key in objs' <==> key in objs) && (key in objs ==> objs'[key] == objs[key]))
      && (o.NotClaimed? && key in objs && !f.copyFails(key, claim) ==> claim in objs' && objs'[claim] == objs[key])
      && (!o.NotClaimed? ==> key !in objs')
      && (o.LeftClaimed? ==> claim in objs' && objs'[claim] == objs[key])
      && (o.Completed? ==> ProcessedName(key) in objs' && objs'[ProcessedName(key)] == objs[key] && claim !in objs')
      && (o.Completed? <==>
            (!o.NotClaimed? && !f.downloadFails(claim) && !f.copyFails(claim, ProcessedName(key)) && !f.deleteFails(claim)))
  {
    DerivedNamesDistinct(key);
    var claim := BucketClaimKey(key);
    if key in objs && !f.copyFails(key, claim) && !f.deleteFails(key) {
      assert claim in Copied(objs, key, claim) - {key};
    }
  }

  /** A bucket worker on `key` touches no other listed key nor its processed
      key, and takes at most `key` out of the listing. */
  lemma BucketWorkerFrame(objs: Store, key: string, f: BucketFaults, q: string)
    requires ListedInBucket(key) && ListedInBucket(q) && q != key
    ensures var objs' := BucketWorker(objs, key, f).0;
      && (q in objs' <==> q in objs) && (q in objs ==> objs'[q] == objs[q])
      && (ProcessedName(q) in objs ==> ProcessedName(q) in objs' && objs'[ProcessedName(q)] == objs[ProcessedName(q)])
  {
    var claim, done := BucketClaimKey(key), ProcessedName(key);
    NamesApart(key, q);
    assert q != claim && q != done && ProcessedName(q) != key;
    assert ProcessedName(q) != claim && ProcessedName(q) != done;
  }

  /** The listing after a bucket worker: the key leaves it exactly when the
      worker claimed it. */
  lemma BucketWorkerListing(objs: Store, prefix: string, key: string, f: BucketFaults)
    requires key in objs && ListedInBucket(key)
    ensures var (objs', o) := BucketWorker(objs, key, f);
      BucketListing(objs', prefix) == if o.NotClaimed? then BucketListing(objs, prefix) else BucketListing(objs, prefix) - {key}
  {
    DerivedNamesNotListed(key);
    DerivedNamesDistinct(key);
  }

  /** One more bucket worker keeps the loop's state. */
  lemma BucketStep(objs0: Store, objs: Store, prefix: string, f: BucketFaults,
                   pending: set<string>, outcomes: map<string, FileOutcome>, key: string)
    requires Progress(objs0, objs, BucketListing(objs0, prefix), BucketListing(objs, prefix), pending, outcomes)
    requires key in pending
    ensures var (objs', o) := BucketWorker(objs, key, f);
      Progress(objs0, objs', BucketListing(objs0, prefix), BucketListing(objs', prefix), pending - {key}, outcomes[key := o])
  {
    var (objs', o) := BucketWorker(objs, key, f);
    assert ListedInBucket(key) && key in objs;
    BucketWorkerSpec(objs, key, f);
    BucketWorkerListing(objs, prefix, key, f);
    forall q | q in BucketListing(objs0, prefix) && q != key
      ensures (q in objs' <==> q in objs) && (q in objs ==> objs'[q] == objs[q])
      ensures ProcessedName(q) in objs ==> ProcessedName(q) in objs' && objs'[ProcessedName(q)] == objs[ProcessedName(q)]
    {
      BucketWorkerFrame(objs, key, f, q);
    }
    ProgressStep(objs0, objs, objs', BucketListing(objs0, prefix), BucketListing(objs, prefix), BucketListing(objs', prefix),
                 pending, outcomes, key, o);
  }

  /** The copy-then-delete claim is not exclusive: when two workers list the
      same key and both copy it before either deletes it, both copies and
      both deletes succeed (a delete of a missing key succeeds), so both
      workers go on to import the object. */
  lemma BucketClaimNotExclusive(objs: Store, key: string)
    requires key in objs && ListedInBucket(key)
    ensures var c := BucketClaimKey(key);
      var afterA := Copied(objs, key, c);
      key in afterA &&
      var afterB := Copied(afterA, key, c);
      var afterDeletes := afterB - {key} - {key};
      c in afterDeletes && afterDeletes[c] == objs[key] && key !in afterDeletes
  {
    DerivedNamesDistinct(key);
  }

  /** A bucket: its objects by key, the listing prefix, and the calls that
      fail. */
  class Bucket {
    var objects: Store
    const prefix: string
    const faults: BucketFaults
    const readStops: string -> Option<nat>

    constructor (objects: Store, prefix: string, faults: BucketFaults, readStops: string -> Option<nat>)
      ensures this.objects == objects && this.prefix == prefix && this.faults == faults && this.readStops == readStops
    {
      this.objects, this.prefix, this.faults, this.readStops := objects, prefix, faults, readStops;
    }

    /** `copyObject`: fails when the source is missing or the store refuses. */
    method CopyObject(from: string, to: string) returns (ok: bool)
      modifies this
      ensures ok == (from in old(objects) && !faults.copyFails(from, to))
      ensures objects == if ok then Copied(old(objects), from, to) else old(objects)
    {
      ok := from in objects && !faults.copyFails(from, to);
      if ok {
        objects := Copied(objects, from, to);
      }
    }

    /** `deleteObject`: succeeds for a missing key unless the store refuses. */
    method DeleteObject(key: string) returns (ok: bool)
      modifies this
      ensures ok == !faults.deleteFails(key)
      ensures objects == if ok then old(objects) - {key} else old(objects)
    {
      ok := !faults.deleteFails(key);
      if ok {
        objects := objects - {key};
      }
    }

    /** One worker of `s3ProcessJLFiles`: claim the key, download and import
        the claimed object, complete the claim.  The store sees the import
        of what could be read whenever the claim and the download
        succeeded. */
    method ImportOne(svc: Service.ImportService, key: string) returns (o: FileOutcome)
      requires ListedInBucket(key)
      modifies this, svc
      ensures (objects, o) == BucketWorker(old(objects), key, faults)
      ensures (o.NotClaimed? || faults.downloadFails(BucketClaimKey(key))) ==> svc.Store() == old(svc.Store())
      ensures Grows(old(svc.Store()), svc.Store())
      ensures !o.NotClaimed? && !faults.downloadFails(BucketClaimKey(key)) ==>
        key in old(objects) &&
        var (lines, fails) := ReadLines(old(objects)[key], readStops(BucketClaimKey(key)));
        svc.Store() == ImportFile(svc.env, old(svc.Store()), lines, fails).0
    {
      var claim, done := BucketClaimKey(key), ProcessedName(key);
      DerivedNamesDistinct(key);
      var copied := CopyObject(key, claim);
      if !copied {
        return NotClaimed;
      }
      var deleted := DeleteObject(key);
      if !deleted {
        return NotClaimed;
      }
      if faults.downloadFails(claim) {
        return LeftClaimed;
      }
      var (lines, fails) := ReadLines(objects[claim], readStops(claim));
      ghost var _ := svc.ParseAndImportJLFile(lines, fails);
      var moved := CopyObject(claim, done);
      if !moved {
        return LeftClaimed;
      }
      var cleared := DeleteObject(claim);
      return if cleared then Completed else LeftClaimed;
    }

    /** `s3ProcessJLFiles`: every listed key gets a worker. */
    method ImportBucket(svc: Service.ImportService) returns (outcomes: map<string, FileOutcome>)
      modifies this, svc
      ensures outcomes.Keys == BucketListing(old(objects), prefix)
      ensures Handled(old(objects), objects, BucketListing(old(objects), prefix), BucketListing(objects, prefix), outcomes)
      ensures Grows(old(svc.Store()), svc.Store())
    {
      var pending := BucketListing(objects, prefix);
      outcomes := map[];
      assert Unclaimed(outcomes) == {};
      while pending != {}
        invariant Progress(old(objects), objects, BucketListing(old(objects), prefix), BucketListing(objects, prefix), pending, outcomes)
        invariant Grows(old(svc.Store()), svc.Store())
        decreases |pending|
      {
        var key :| key in pending;
        assert ListedInBucket(key);
        BucketStep(old(objects), objects, prefix, faults, pending, outcomes, key);
        ghost var before := svc.Store();
        var o := ImportOne(svc, key);
        GrowsTransitive(old(svc.Store()), before, svc.Store());
        outcomes := outcomes[key := o];
        pending := pending - {key};
      }
    }
  }
}
