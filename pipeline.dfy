/** The per-line import pipeline of `parseAndImportJLFile` and
    `processReviewLine`, as functions of the configuration, the store and the
    line: parse, validate, resolve the references, skip a review already
    stored, map the review and collect its overall-by-provider rows and
    grades; then buffer, flush at the batch size and flush the remainder. */
module Pipeline {
  import opened Wrappers
  import opened Json
  import opened Entities
  import opened Validation
  import opened Resolver
  import opened Mapping
  import opened BatchWriter

  /** The importer's configuration and the parts of its world the model does
      not see: the JSON parser (None: it throws), the date parser (None: the
      text does not parse) and the store's failures. */
  datatype Env = Env(
    required: RequiredFields,
    batchSize: int,
    parse: string -> Option<Json>,
    parseDate: string -> Option<LocalDateTime>,
    faults: Faults)

  /** What a line resolves to before its review is built. */
  datatype Refs = Refs(comment: Json, provider: Provider, hotel: Hotel, reviewer: Reviewer, reviewId: int)

  /** The hotel name: null for a JSON null, its text otherwise. */
  function HotelName(v: Json): (r: Option<string>)
    ensures r.None? <==> v.JNull?
  {
    if v.JNull? then None else Some(AsText(v))
  }

  /** The reference steps of a validated line, in the source's evaluation
      order: provider (from the comment's provider id and provider text),
      hotel, reviewer, then the review id.  A member read through a null
      (a missing member, or a missing `comment`) throws and ends the line;
      the upserts done by then stay done. */
  function Resolve(t: Tables, root: Json): (Tables, Option<Refs>)
  {
    var comment := Get(root, "comment");
    var pid := Fetch(comment, "providerId");
    var pname := Fetch(comment, "reviewProviderText");
    if pid.Thrown? || pname.Thrown? then (t, None)
    else
      var (t1, provider) := UpsertProvider(t, AsLong(pid.value), AsText(pname.value));
      var hid := Fetch(Some(root), "hotelId");
      var hname := Fetch(Some(root), "hotelName");
      if hid.Thrown? || hname.Thrown? then (t1, None)
      else
        var (t2, hotel) := UpsertHotel(t1, AsLong(hid.value), HotelName(hname.value));
        var info := Fetch(comment, "reviewerInfo");
        if info.Thrown? then (t2, None)
        else
          var (t3, reviewer) := UpsertReviewer(t2, info.value);
          var rid := Fetch(comment, "hotelReviewId");
          if rid.Thrown? then (t3, None)
          else (t3, Some(Refs(comment.value, provider, hotel, reviewer, AsLong(rid.value))))
  }

  /** One `overallByProviders` entry: upsert its provider, build the row,
      and build one grade per member of its `grades` (none when absent).  A
      missing `providerId`, `provider`, `overallScore` or `reviewCount`
      throws; a throw after the upsert keeps the upsert. */
  function Entry(t: Tables, review: Review, overall: Json): (Tables, Outcome<(Obp, seq<Grade>)>)
  {
    var pid := Fetch(Some(overall), "providerId");
    var pname := Fetch(Some(overall), "provider");
    if pid.Thrown? || pname.Thrown? then (t, Thrown)
    else
      var (t1, provider) := UpsertProvider(t, AsLong(pid.value), AsText(pname.value));
      var score := Fetch(Some(overall), "overallScore");
      var count := Fetch(Some(overall), "reviewCount");
      if score.Thrown? || count.Thrown? then (t1, Thrown)
      else
        var obp := Obp(review, provider, AsDouble(score.value), AsLong(count.value));
        (t1, Ok((obp, EntryGrades(review, overall))))
  }

  /** The grades of one entry: one per member of its `grades` object, none
      when the member is absent. */
  function EntryGrades(review: Review, overall: Json): seq<Grade>
  {
    if Has(overall, "grades") then GradesOf(review, Get(overall, "grades").value) else []
  }

  /** The grades of the given entries, concatenated in entry order. */
  function GradesOfEntries(review: Review, entries: seq<Json>): seq<Grade>
    decreases |entries|
  {
    if entries == [] then []
    else GradesOfEntries(review, entries[..|entries| - 1]) + EntryGrades(review, entries[|entries| - 1])
  }

  /** The rows and grades collected over the entries so far, and whether an
      entry threw. */
  datatype Collected = Collected(t: Tables, obps: seq<Obp>, grades: seq<Grade>, threw: bool)

  /** The loop over the entries: a throwing entry ends it; the rows of the
      earlier entries have already been appended. */
  function Collect(t: Tables, review: Review, entries: seq<Json>): Collected
    decreases |entries|
  {
    if entries == [] then Collected(t, [], [], false)
    else
      var c := Collect(t, review, entries[..|entries| - 1]);
      if c.threw then c
      else
        var (t1, e) := Entry(c.t, review, entries[|entries| - 1]);
        match e
        case Thrown => c.(t := t1, threw := true)
        case Ok((obp, gs)) => Collected(t1, c.obps + [obp], c.grades + gs, false)
  }

  /** The entries `for (JsonNode overall : root.get("overallByProviders"))`
      visits, or none when the member is absent. */
  function EntriesOf(root: Json): seq<Json>
  {
    if Has(root, "overallByProviders") then Elements(Get(root, "overallByProviders").value) else []
  }

  /** How a line ends.  `Skipped`: nothing is buffered (it did not parse,
      failed or threw in validation, threw while resolving, or its review id
      is stored).  `Accepted`: a review, its grade list and its rows.
      `Broken`: an entry threw after the review was buffered, so the review
      and the rows of the earlier entries are buffered but no grade list. */
  datatype LineResult =
    | Skipped(t: Tables)
    | Accepted(t: Tables, review: Review, grades: seq<Grade>, obps: seq<Obp>)
    | Broken(t: Tables, review: Review, obps: seq<Obp>)

  /** The review a line that passed the id check maps to. */
  function ReviewOf(env: Env, refs: Refs): Review
  {
    MapReview(refs.comment, refs.reviewId, refs.hotel, refs.provider, refs.reviewer, env.parseDate)
  }

  /** One line of the loop up to the point where it touches the buffers.
      Whatever the line, its reference steps only add providers, hotels and
      reviewers, and nothing is written to the other tables yet. */
  function ClassifyLine(env: Env, t: Tables, line: string): (l: LineResult)
    ensures KeepsStore(t, l.t)
  {
    match env.parse(line)
    case None => Skipped(t)
    case Some(root) =>
      if !Validate(env.required, root).Passed? then Skipped(t)
      else
        ClassifyValidSpec(env, t, root);
        ClassifyValid(env, t, root)
  }

  /** A line that passed validation, from the reference steps on. */
  function ClassifyValid(env: Env, t: Tables, root: Json): LineResult
  {
    var (t1, refs) := Resolve(t, root);
    if refs.None? || t1.ReviewExists(refs.value.reviewId) then Skipped(t1)
    else
      var review := ReviewOf(env, refs.value);
      var c := Collect(t1, review, EntriesOf(root));
      if c.threw then Broken(c.t, review, c.obps) else Accepted(c.t, review, c.grades, c.obps)
  }

  /** The state of the loop: the store, the three buffers, and the batches
      handed to `saveBatchWithRetry` so far. */
  datatype Run = Run(t: Tables, buf: Batch, sent: seq<Batch>)

  /** One iteration of the line loop. */
  function LineStep(env: Env, r: Run, line: string): Run
  {
    Apply(env, r, ClassifyLine(env, r.t, line))
  }

  /** The buffer half of an iteration.  An accepted line that brings the
      review buffer to the batch size flushes; the buffers are cleared only
      when the flush does not throw (a throw skips the clearing and is caught
      as a line error). */
  function Apply(env: Env, r: Run, l: LineResult): Run
  {
    match l
    case Skipped(t) => r.(t := t)
    case Broken(t, review, obps) =>
      Run(t, r.buf.(reviews := r.buf.reviews + [review], obps := r.buf.obps + obps), r.sent)
    case Accepted(t, review, grades, obps) =>
      var buf := Batch(r.buf.reviews + [review], r.buf.grades + [grades], r.buf.obps + obps);
      if |buf.reviews| >= env.batchSize then
        var (t2, threw) := SaveBatch(env.faults, t, buf);
        Run(t2, if threw then buf else EmptyBatch, r.sent + [buf])
      else Run(t, buf, r.sent)
  }

  /** The line loop over the lines read. */
  function ImportLines(env: Env, t: Tables, lines: seq<string>): Run
    decreases |lines|
  {
    if lines == [] then Run(t, EmptyBatch, [])
    else LineStep(env, ImportLines(env, t, lines[..|lines| - 1]), lines[|lines| - 1])
  }

  /** `parseAndImportJLFile`: the line loop, then a flush of a non-empty
      remainder.  `lines` are the lines read; `readFails` says reading
      stopped with an error, which is caught outside the loop and skips the
      final flush.  Returns the store and the batches handed to the writer. */
  function ImportFile(env: Env, t: Tables, lines: seq<string>, readFails: bool): (r: (Tables, seq<Batch>))
    ensures Grows(t, r.0)
  {
    var run := ImportLines(env, t, lines);
    ImportLinesGrows(env, t, lines);
    FinishGrows(env, run, readFails);
    GrowsTransitive(t, run.t, Finish(env, run, readFails).0);
    Finish(env, run, readFails)
  }

  /** After the loop: flush a non-empty remainder unless reading failed. */
  function Finish(env: Env, r: Run, readFails: bool): (Tables, seq<Batch>)
  {
    if readFails || r.buf.reviews == [] then (r.t, r.sent)
    else (SaveBatch(env.faults, r.t, r.buf).0, r.sent + [r.buf])
  }

  /** `processReviewLine`: the same gate and reference steps, then every
      row is saved at once: the review, and per entry its row and then its
      grades.  A failing save throws and ends the line; what was saved before
      stays saved.  The store only grows. */
  function ProcessLine(env: Env, t: Tables, line: string): (t': Tables)
    ensures Grows(t, t')
  {
    match env.parse(line)
    case None => t
    case Some(root) =>
      if !Validate(env.required, root).Passed? then t
      else
        ProcessValidGrows(env, t, root);
        ProcessValid(env, t, root)
  }

  /** `processReviewLine` for a line that passed validation. */
  function ProcessValid(env: Env, t: Tables, root: Json): Tables
  {
    var (t1, refs) := Resolve(t, root);
    if refs.None? || t1.ReviewExists(refs.value.reviewId) then t1
    else
      var review := ReviewOf(env, refs.value);
      if env.faults.reviewSaveFails(review) then t1
      else SaveEntries(env.faults, t1.(reviews := t1.reviews + [review]), review, EntriesOf(root)).0
  }

  /** The entry loop of `processReviewLine`; the flag says it threw. */
  function SaveEntries(f: Faults, t: Tables, review: Review, entries: seq<Json>): (Tables, bool)
    decreases |entries|
  {
    if entries == [] then (t, false)
    else
      var (t1, threw) := SaveEntries(f, t, review, entries[..|entries| - 1]);
      if threw then (t1, true)
      else
        var (t2, e) := Entry(t1, review, entries[|entries| - 1]);
        match e
        case Thrown => (t2, true)
        case Ok((obp, gs)) =>
          if f.obpSaveFails(obp) then (t2, true) else SaveGrades(f, t2.(obps := t2.obps + [obp]), gs)
  }

  /** Grades saved one by one; the first failing save throws. */
  function SaveGrades(f: Faults, t: Tables, gs: seq<Grade>): (Tables, bool)
    decreases |gs|
  {
    if gs == [] then (t, false)
    else
      var (t1, threw) := SaveGrades(f, t, gs[..|gs| - 1]);
      if threw then (t1, true)
      else if f.gradeSaveFails(gs[|gs| - 1]) then (t1, true)
      else (t1.(grades := t1.grades + [gs[|gs| - 1]]), false)
  }

  /** The reviews of the batches, concatenated in order. */
  function ReviewsSent(sent: seq<Batch>): seq<Review>
    decreases |sent|
  {
    if sent == [] then [] else ReviewsSent(sent[..|sent| - 1]) + sent[|sent| - 1].reviews
  }

  /** The reviews the lines map to, in line order: one per accepted or
      broken line. */
  function AcceptedReviews(env: Env, t: Tables, lines: seq<string>): seq<Review>
    decreases |lines|
  {
    if lines == [] then []
    else
      var init := lines[..|lines| - 1];
      AcceptedReviews(env, t, init) + Buffered(ClassifyLine(env, ImportLines(env, t, init).t, lines[|lines| - 1]))
  }

  /** The review a line buffers, if any. */
  function Buffered(l: LineResult): seq<Review>
  {
    if l.Skipped? then [] else [l.review]
  }

  /** No line of the file breaks after buffering its review. */
  predicate NoBrokenLine(env: Env, t: Tables, lines: seq<string>)
    decreases |lines|
  {
    lines != [] ==>
      var init := lines[..|lines| - 1];
      NoBrokenLine(env, t, init) && !ClassifyLine(env, ImportLines(env, t, init).t, lines[|lines| - 1]).Broken?
  }

  /** The store fails no save. */
  ghost predicate NoStoreFaults(f: Faults)
  {
    && (forall rs :: !f.reviewsSaveAllFails(rs))
    && (forall gs :: !f.gradesSaveAllFails(gs))
    && (forall os :: !f.obpsSaveAllFails(os))
    && (forall r :: !f.reviewSaveFails(r))
    && (forall g :: !f.gradeSaveFails(g))
    && (forall o :: !f.obpSaveFails(o))
  }

  // ---------------------------------------------------------------- lemmas

  /** Resolving keeps everything stored: it can only add providers, hotels
      and reviewers. */
  lemma ResolveKeepsStore(t: Tables, root: Json)
    ensures KeepsStore(t, Resolve(t, root).0)
  {
    var comment := Get(root, "comment");
    var pid := Fetch(comment, "providerId");
    var pname := Fetch(comment, "reviewProviderText");
    if !(pid.Thrown? || pname.Thrown?) {
      var (t1, _) := UpsertProvider(t, AsLong(pid.value), AsText(pname.value));
      UpsertProviderKeepsStore(t, AsLong(pid.value), AsText(pname.value));
      var hid := Fetch(Some(root), "hotelId");
      var hname := Fetch(Some(root), "hotelName");
      if !(hid.Thrown? || hname.Thrown?) {
        var (t2, _) := UpsertHotel(t1, AsLong(hid.value), HotelName(hname.value));
        UpsertHotelKeepsStore(t1, AsLong(hid.value), HotelName(hname.value));
        KeepsStoreTransitive(t, t1, t2);
        var info := Fetch(comment, "reviewerInfo");
        if !info.Thrown? {
          UpsertReviewerKeepsStore(t2, info.value);
          KeepsStoreTransitive(t, t2, UpsertReviewer(t2, info.value).0);
        }
      }
    }
  }

  /** The entry loop touches only the provider table, every row and grade it
      collects refers to the review, and it collects one row per entry when
      no entry throws.  `CollectContents` gives the rows and grades
      themselves. */
  lemma {:induction false} CollectSpec(t: Tables, review: Review, entries: seq<Json>)
    ensures var c := Collect(t, review, entries);
      && KeepsStore(t, c.t)
      && (forall o :: o in c.obps ==> o.review == review)
      && (forall g :: g in c.grades ==> g.review == review)
      && (!c.threw ==> |c.obps| == |entries|)
    decreases |entries|
  {
    if entries != [] {
      var init := entries[..|entries| - 1];
      CollectSpec(t, review, init);
      var c := Collect(t, review, init);
      if !c.threw {
        var overall := entries[|entries| - 1];
        var pid := Fetch(Some(overall), "providerId");
        var pname := Fetch(Some(overall), "provider");
        if !(pid.Thrown? || pname.Thrown?) {
          UpsertProviderKeepsStore(c.t, AsLong(pid.value), AsText(pname.value));
          KeepsStoreTransitive(t, c.t, UpsertProvider(c.t, AsLong(pid.value), AsText(pname.value)).0);
          if Has(overall, "grades") {
            var gs := GradesOf(review, Get(overall, "grades").value);
            assert forall k :: 0 <= k < |gs| ==> gs[k].review == review;
          }
        }
      }
    }
  }

  /** The row of an entry carries the entry's score and count. */
  ghost predicate RowOf(overall: Json, obp: Obp)
  {
    && Has(overall, "overallScore") && Has(overall, "reviewCount")
    && obp.overallScore == AsDouble(Get(overall, "overallScore").value)
    && obp.reviewCount == AsLong(Get(overall, "reviewCount").value)
  }

  /** The rows are those of the first `|obps|` entries, in order. */
  ghost predicate RowsOf(entries: seq<Json>, obps: seq<Obp>)
  {
    |obps| <= |entries| && forall i :: 0 <= i < |obps| ==> RowOf(entries[i], obps[i])
  }

  /** What the entry loop collected over `entries`: one row per entry up to
      the first entry that throws (all of them when none throws), each row
      with its entry's score and count, and the grades of exactly those
      entries, concatenated in entry order. */
  ghost predicate CollectedFrom(review: Review, entries: seq<Json>, c: Collected)
  {
    && RowsOf(entries, c.obps)
    && (c.threw <==> |c.obps| < |entries|)
    && c.grades == GradesOfEntries(review, entries[..|c.obps|])
  }

  /** The entry loop collects what CollectedFrom says. */
  lemma {:induction false} CollectContents(t: Tables, review: Review, entries: seq<Json>)
    ensures CollectedFrom(review, entries, Collect(t, review, entries))
    decreases |entries|
  {
    if entries != [] {
      var init, last := entries[..|entries| - 1], entries[|entries| - 1];
      assert entries == init + [last];
      CollectContents(t, review, init);
      CollectContentsStep(t, review, init, last);
    }
  }

  lemma CollectContentsStep(t: Tables, review: Review, init: seq<Json>, last: Json)
    requires CollectedFrom(review, init, Collect(t, review, init))
    ensures CollectedFrom(review, init + [last], Collect(t, review, init + [last]))
  {
    var entries := init + [last];
    assert entries[..|entries| - 1] == init;
    var c := Collect(t, review, init);
    if c.threw {
      assert Collect(t, review, entries) == c;
      CollectedFromThrown(review, init, last, c);
    } else {
      var (t1, e) := Entry(c.t, review, last);
      if e.Thrown? {
        assert Collect(t, review, entries) == c.(t := t1, threw := true);
        CollectedFromThrown(review, init, last, c.(t := t1, threw := true));
      } else {
        EntryContents(c.t, review, last);
        assert Collect(t, review, entries) == Collected(t1, c.obps + [e.value.0], c.grades + e.value.1, false);
        CollectedFromOk(review, init, last, c, t1, e.value.0, e.value.1);
      }
    }
  }

  /** A throw, now or earlier, keeps what was collected before the last
      entry. */
  lemma CollectedFromThrown(review: Review, init: seq<Json>, last: Json, c: Collected)
    requires c.threw && RowsOf(init, c.obps) && c.grades == GradesOfEntries(review, init[..|c.obps|])
    ensures CollectedFrom(review, init + [last], c)
  {
    var entries := init + [last];
    assert entries[..|c.obps|] == init[..|c.obps|];
    RowsOfLonger(init, entries, c.obps);
  }

  /** A last entry that does not throw adds its row and its grades. */
  lemma CollectedFromOk(review: Review, init: seq<Json>, last: Json, c: Collected, t1: Tables, obp: Obp, gs: seq<Grade>)
    requires CollectedFrom(review, init, c) && !c.threw
    requires RowOf(last, obp) && gs == EntryGrades(review, last)
    ensures CollectedFrom(review, init + [last], Collected(t1, c.obps + [obp], c.grades + gs, false))
  {
    var entries := init + [last];
    assert init[..|c.obps|] == init;
    assert entries[..|entries| - 1] == init;
    RowsOfLonger(init, entries, c.obps);
    RowsOfSnoc(entries, c.obps, obp);
    assert entries[..|c.obps| + 1] == entries;
  }

  /** Rows of a prefix of the entries are rows of the entries. */
  lemma RowsOfLonger(init: seq<Json>, entries: seq<Json>, obps: seq<Obp>)
    requires RowsOf(init, obps) && |init| <= |entries| && init == entries[..|init|]
    ensures RowsOf(entries, obps)
  {
    forall i | 0 <= i < |obps| ensures RowOf(entries[i], obps[i]) {
      assert entries[i] == init[i];
    }
  }

  /** One more row, of the next entry. */
  lemma RowsOfSnoc(entries: seq<Json>, obps: seq<Obp>, obp: Obp)
    requires RowsOf(entries, obps) && |obps| < |entries| && RowOf(entries[|obps|], obp)
    ensures RowsOf(entries, obps + [obp])
  {
    var os := obps + [obp];
    forall i | 0 <= i < |os| ensures RowOf(entries[i], os[i]) {
      if i < |obps| {
        assert os[i] == obps[i];
      }
    }
  }

  /** An entry that does not throw has the members its row reads, and its
      row carries their values. */
  lemma EntryContents(t: Tables, review: Review, overall: Json)
    requires Entry(t, review, overall).1.Ok?
    ensures var (obp, gs) := Entry(t, review, overall).1.value;
      obp.review == review && RowOf(overall, obp) && gs == EntryGrades(review, overall)
  {
  }

  /** The three kinds of skipped line buffer nothing: a line that does not
      parse or fails validation changes nothing at all; a line whose review
      id is already stored keeps only its reference upserts. */
  lemma SkippedLines(env: Env, t: Tables, line: string)
    ensures env.parse(line).None? ==> ClassifyLine(env, t, line) == Skipped(t)
    ensures env.parse(line).Some? && !Validate(env.required, env.parse(line).value).Passed? ==>
      ClassifyLine(env, t, line) == Skipped(t)
    ensures env.parse(line).Some? && Validate(env.required, env.parse(line).value).Passed? ==>
      var (t1, refs) := Resolve(t, env.parse(line).value);
      refs.Some? && t1.ReviewExists(refs.value.reviewId) ==> ClassifyLine(env, t, line) == Skipped(t1)
  {
  }

  /** Whatever the line, everything stored is kept; and a line that
      buffers a review has a review id not in the store, and rows and grades
      of that review only. */
  lemma ClassifyLineSpec(env: Env, t: Tables, line: string)
    ensures var l := ClassifyLine(env, t, line);
      && KeepsStore(t, l.t)
      && (!l.Skipped? ==> !t.ReviewExists(l.review.id) && forall o :: o in l.obps ==> o.review == l.review)
      && (l.Accepted? ==> forall g :: g in l.grades ==> g.review == l.review)
  {
    if env.parse(line).Some? && Validate(env.required, env.parse(line).value).Passed? {
      ClassifyValidSpec(env, t, env.parse(line).value);
    }
  }

  lemma ClassifyValidSpec(env: Env, t: Tables, root: Json)
    ensures var l := ClassifyValid(env, t, root);
      && KeepsStore(t, l.t)
      && (!l.Skipped? ==> !t.ReviewExists(l.review.id) && forall o :: o in l.obps ==> o.review == l.review)
      && (l.Accepted? ==> forall g :: g in l.grades ==> g.review == l.review)
  {
    ResolveKeepsStore(t, root);
    var (t1, refs) := Resolve(t, root);
    if refs.Some? && !t1.ReviewExists(refs.value.reviewId) {
      var review := ReviewOf(env, refs.value);
      var c := Collect(t1, review, EntriesOf(root));
      CollectSpec(t1, review, EntriesOf(root));
      KeepsStoreTransitive(t, t1, c.t);
      assert review.id == refs.value.reviewId;
      assert !t.ReviewExists(review.id) by {
        assert t1.reviews == t.reviews;
      }
    }
  }

  /** The number of reviews every flush inside the loop sends: the
      configured batch size, or 1 when that is not positive, since the test
      `reviewBatch.size() >= batchSize` then holds after every accepted line. */
  function FlushSize(batchSize: int): (n: nat)
    ensures n >= 1 && batchSize <= n
    ensures batchSize >= 1 ==> n == batchSize
  {
    if batchSize >= 1 then batchSize else 1
  }

  /** The invariant of the line loop when no line breaks: the buffers are
      aligned, they hold fewer reviews than the flush size, every batch sent
      so far held exactly the flush size, and the reviews sent followed by the
      reviews buffered are the accepted reviews in line order.  Without store
      faults, the reviews persisted are the ones before plus those sent. */
  ghost predicate LoopInvariant(env: Env, t: Tables, r: Run, accepted: seq<Review>)
  {
    && Aligned(r.buf)
    && |r.buf.reviews| < FlushSize(env.batchSize)
    && (forall k :: 0 <= k < |r.sent| ==> |r.sent[k].reviews| == FlushSize(env.batchSize))
    && ReviewsSent(r.sent) + r.buf.reviews == accepted
    && (NoStoreFaults(env.faults) ==> r.t.reviews == t.reviews + ReviewsSent(r.sent))
  }

  /** An accepted line keeps the buffers aligned. */
  lemma AcceptedKeepsAligned(buf: Batch, review: Review, grades: seq<Grade>, obps: seq<Obp>)
    requires Aligned(buf)
    requires forall o :: o in obps ==> o.review == review
    requires forall g :: g in grades ==> g.review == review
    ensures Aligned(Batch(buf.reviews + [review], buf.grades + [grades], buf.obps + obps))
  {
    var b := Batch(buf.reviews + [review], buf.grades + [grades], buf.obps + obps);
    forall i, g | 0 <= i < |b.grades| && g in b.grades[i] ensures g.review == b.reviews[i] {
      if i < |buf.grades| {
        assert b.grades[i] == buf.grades[i] && b.reviews[i] == buf.reviews[i];
      }
    }
  }

  /** One line that does not break keeps the loop invariant. */
  lemma LineStepKeepsInvariant(env: Env, t: Tables, r: Run, accepted: seq<Review>, line: string)
    requires LoopInvariant(env, t, r, accepted)
    requires !ClassifyLine(env, r.t, line).Broken?
    ensures LoopInvariant(env, t, LineStep(env, r, line), accepted + Buffered(ClassifyLine(env, r.t, line)))
  {
    ClassifyLineSpec(env, r.t, line);
    ApplyKeepsInvariant(env, t, r, accepted, ClassifyLine(env, r.t, line));
  }

  lemma ApplyKeepsInvariant(env: Env, t: Tables, r: Run, accepted: seq<Review>, l: LineResult)
    requires LoopInvariant(env, t, r, accepted)
    requires !l.Broken?
    requires KeepsStore(r.t, l.t)
    requires l.Accepted? ==> (forall o :: o in l.obps ==> o.review == l.review) && forall g :: g in l.grades ==> g.review == l.review
    ensures LoopInvariant(env, t, Apply(env, r, l), accepted + Buffered(l))
  {
    if l.Skipped? {
      assert accepted + [] == accepted;
    } else {
      var buf := Batch(r.buf.reviews + [l.review], r.buf.grades + [l.grades], r.buf.obps + l.obps);
      AcceptedKeepsAligned(r.buf, l.review, l.grades, l.obps);
      assert ReviewsSent(r.sent) + buf.reviews == accepted + [l.review];
      if |buf.reviews| >= env.batchSize {
        FlushKeepsInvariant(env, t, r.sent, l.t, buf, accepted + [l.review]);
      }
    }
  }

  /** A flush at the batch size sends exactly the flush size, does not throw
      and empties the buffers, so the invariant holds of the run after it. */
  lemma FlushKeepsInvariant(env: Env, t: Tables, sent: seq<Batch>, t1: Tables, buf: Batch, accepted: seq<Review>)
    requires Aligned(buf) && |buf.reviews| == FlushSize(env.batchSize)
    requires forall k :: 0 <= k < |sent| ==> |sent[k].reviews| == FlushSize(env.batchSize)
    requires ReviewsSent(sent) + buf.reviews == accepted
    requires NoStoreFaults(env.faults) ==> t1.reviews == t.reviews + ReviewsSent(sent)
    ensures !SaveBatch(env.faults, t1, buf).1
    ensures LoopInvariant(env, t, Run(SaveBatch(env.faults, t1, buf).0, EmptyBatch, sent + [buf]), accepted)
  {
    AlignedSaveDoesNotThrow(env.faults, t1, buf);
    var sent' := sent + [buf];
    assert sent'[..|sent'| - 1] == sent;
    assert ReviewsSent(sent') == ReviewsSent(sent) + buf.reviews;
    assert ReviewsSent(sent') + [] == ReviewsSent(sent');
    if NoStoreFaults(env.faults) {
      NoFaultsSaveAll(env.faults, t1, buf);
    }
  }

  /** The line loop keeps the invariant when no line breaks. */
  lemma {:induction false} ImportLinesInvariant(env: Env, t: Tables, lines: seq<string>)
    requires NoBrokenLine(env, t, lines)
    ensures LoopInvariant(env, t, ImportLines(env, t, lines), AcceptedReviews(env, t, lines))
    decreases |lines|
  {
    if lines == [] {
      assert Aligned(EmptyBatch);
    } else {
      var init := lines[..|lines| - 1];
      ImportLinesInvariant(env, t, init);
      LineStepKeepsInvariant(env, t, ImportLines(env, t, init), AcceptedReviews(env, t, init), lines[|lines| - 1]);
    }
  }

  /** A batch with a grade list for every review is saved without a throw. */
  lemma AlignedSaveDoesNotThrow(f: Faults, t: Tables, b: Batch)
    requires |b.grades| >= |b.reviews|
    ensures !SaveBatch(f, t, b).1
  {
    RetryNoThrow(f, t, b, |b.reviews|);
    var t1 := t.(reviews := t.reviews + b.reviews);
    RetryNoThrow(f, t1, b, |b.reviews|);
    var t2 := t1.(grades := t1.grades + Flatten(b.grades));
    RetryNoThrow(f, t2, b, |b.reviews|);
  }

  /** Without store faults a batch goes down the bulk path. */
  lemma NoFaultsSaveAll(f: Faults, t: Tables, b: Batch)
    requires NoStoreFaults(f)
    ensures SaveBatch(f, t, b) ==
      (t.(reviews := t.reviews + b.reviews, grades := t.grades + Flatten(b.grades), obps := t.obps + b.obps), false)
  {
    BulkSaveOrder(f, t, b);
  }

  /** When no line breaks and reading does not fail, every review the lines
      map to is handed to the writer exactly once, in line order, in batches
      of the flush size except a smaller non-empty last one (batches of one
      when the configured size is not positive); without store
      faults these are exactly the reviews persisted. */
  lemma ImportFileSendsEachOnce(env: Env, t: Tables, lines: seq<string>)
    requires NoBrokenLine(env, t, lines)
    ensures var (t', sent) := ImportFile(env, t, lines, false);
      && ReviewsSent(sent) == AcceptedReviews(env, t, lines)
      && (forall k :: 0 <= k < |sent| ==> 0 < |sent[k].reviews| <= FlushSize(env.batchSize))
      && (NoStoreFaults(env.faults) ==> t'.reviews == t.reviews + AcceptedReviews(env, t, lines))
  {
    ImportLinesInvariant(env, t, lines);
    FinishSendsRemainder(env, t, ImportLines(env, t, lines), AcceptedReviews(env, t, lines));
  }

  /** The final flush completes the batches sent. */
  lemma FinishSendsRemainder(env: Env, t: Tables, r: Run, accepted: seq<Review>)
    requires LoopInvariant(env, t, r, accepted)
    ensures var (t', sent) := Finish(env, r, false);
      && ReviewsSent(sent) == accepted
      && (forall k :: 0 <= k < |sent| ==> 0 < |sent[k].reviews| <= FlushSize(env.batchSize))
      && (NoStoreFaults(env.faults) ==> t'.reviews == t.reviews + accepted)
  {
    if r.buf.reviews == [] {
      assert ReviewsSent(r.sent) + [] == ReviewsSent(r.sent);
    } else {
      var sent := r.sent + [r.buf];
      assert sent[..|sent| - 1] == r.sent;
      assert ReviewsSent(sent) == ReviewsSent(r.sent) + r.buf.reviews;
      if NoStoreFaults(env.faults) {
        NoFaultsSaveAll(env.faults, r.t, r.buf);
      }
    }
  }

  /** A broken line leaves the review buffer one longer than before and the
      grade buffer as it was, so equal-length buffers stop being equal. */
  lemma BrokenLineMisaligns(env: Env, r: Run, line: string)
    requires ClassifyLine(env, r.t, line).Broken?
    ensures var r' := LineStep(env, r, line);
      && |r'.buf.reviews| == |r.buf.reviews| + 1
      && r'.buf.grades == r.buf.grades
      && r'.sent == r.sent
  {
  }

  /** An entry reads only the provider table and changes only that. */
  lemma EntryFrame(t: Tables, s: Tables, review: Review, overall: Json)
    requires s.providers == t.providers
    ensures Entry(s, review, overall).1 == Entry(t, review, overall).1
    ensures Entry(s, review, overall).0 == s.(providers := Entry(t, review, overall).0.providers)
    ensures Entry(t, review, overall).0 == t.(providers := Entry(t, review, overall).0.providers)
  {
  }

  /** Without store faults isolated grade saves write every grade. */
  lemma {:induction false} SaveGradesNoFaults(f: Faults, t: Tables, gs: seq<Grade>)
    requires NoStoreFaults(f)
    ensures SaveGrades(f, t, gs) == (t.(grades := t.grades + gs), false)
    decreases |gs|
  {
    if gs == [] {
      assert t.grades + gs == t.grades;
    } else {
      SaveGradesNoFaults(f, t, gs[..|gs| - 1]);
      assert gs == gs[..|gs| - 1] + [gs[|gs| - 1]];
      assert !f.gradeSaveFails(gs[|gs| - 1]);
      assert t.grades + gs[..|gs| - 1] + [gs[|gs| - 1]] == t.grades + gs;
    }
  }

  /** Without store faults the immediate entry loop writes exactly the rows
      and grades the buffered loop collects, and throws exactly when it does. */
  lemma {:induction false} SaveEntriesNoFaults(f: Faults, t: Tables, review: Review, entries: seq<Json>)
    requires NoStoreFaults(f)
    ensures var c := Collect(t, review, entries);
      SaveEntries(f, t, review, entries) == (c.t.(grades := t.grades + c.grades, obps := t.obps + c.obps), c.threw)
    decreases |entries|
  {
    if entries == [] {
      assert t.grades + [] == t.grades && t.obps + [] == t.obps;
    } else {
      var init := entries[..|entries| - 1];
      var last := entries[|entries| - 1];
      SaveEntriesNoFaults(f, t, review, init);
      CollectSpec(t, review, init);
      var c := Collect(t, review, init);
      if !c.threw {
        var s := c.t.(grades := t.grades + c.grades, obps := t.obps + c.obps);
        EntryFrame(c.t, s, review, last);
        var (t2, e) := Entry(s, review, last);
        if e.Ok? {
          SaveEntryNoFaults(f, t, t2, c, e.value.0, e.value.1);
        }
      }
    }
  }

  /** One more entry of the buffered entry loop, after entries that did not
      throw. */
  lemma CollectStep(t: Tables, review: Review, entries: seq<Json>, i: nat)
    requires i < |entries|
    requires !Collect(t, review, entries[..i]).threw
    ensures var c := Collect(t, review, entries[..i]);
      var (t1, e) := Entry(c.t, review, entries[i]);
      Collect(t, review, entries[..i + 1]) ==
        if e.Thrown? then c.(t := t1, threw := true)
        else Collected(t1, c.obps + [e.value.0], c.grades + e.value.1, false)
  {
    assert entries[..i + 1][..i] == entries[..i];
  }

  /** The saves of one entry of the immediate entry loop: its provider
      upsert, then its row, then its grades; the flag says it threw. */
  function SaveEntry(f: Faults, t: Tables, review: Review, overall: Json): (Tables, bool)
  {
    var (t2, e) := Entry(t, review, overall);
    if e.Thrown? then (t2, true)
    else if f.obpSaveFails(e.value.0) then (t2, true)
    else SaveGrades(f, t2.(obps := t2.obps + [e.value.0]), e.value.1)
  }

  /** One more entry of the immediate entry loop, after entries that did
      not throw. */
  lemma SaveEntriesStep(f: Faults, t: Tables, review: Review, entries: seq<Json>, i: nat)
    requires i < |entries|
    requires !SaveEntries(f, t, review, entries[..i]).1
    ensures SaveEntries(f, t, review, entries[..i + 1]) ==
      SaveEntry(f, SaveEntries(f, t, review, entries[..i]).0, review, entries[i])
  {
    assert entries[..i + 1][..i] == entries[..i];
  }

  /** The saves of one entry that did not throw, without store faults: its
      row, then its grades, appended to what the earlier entries wrote. */
  lemma SaveEntryNoFaults(f: Faults, t: Tables, t2: Tables, c: Collected, obp: Obp, gs: seq<Grade>)
    requires NoStoreFaults(f)
    requires t2.grades == t.grades + c.grades && t2.obps == t.obps + c.obps
    ensures !f.obpSaveFails(obp)
    ensures SaveGrades(f, t2.(obps := t2.obps + [obp]), gs) ==
      (t2.(grades := t.grades + (c.grades + gs), obps := t.obps + (c.obps + [obp])), false)
  {
    SaveGradesNoFaults(f, t2.(obps := t2.obps + [obp]), gs);
    assert t.grades + c.grades + gs == t.grades + (c.grades + gs);
    assert t.obps + c.obps + [obp] == t.obps + (c.obps + [obp]);
  }

  /** How the immediate path's store `t'` relates to what the buffered loop
      made of the same line from store `t`: a line the loop skips has the
      same effect (its upserts only); a line the loop buffers writes its
      review exactly when that save succeeds; without store faults an
      accepted line writes at once exactly the review, grades and rows the
      loop buffers, and a broken line the review and rows the loop buffers. */
  ghost predicate SameEffect(f: Faults, t: Tables, l: LineResult, t': Tables)
  {
    && (l.Skipped? ==> t' == l.t)
    && (!l.Skipped? && f.reviewSaveFails(l.review) ==> t'.reviews == t.reviews && t'.grades == t.grades && t'.obps == t.obps)
    && (NoStoreFaults(f) && l.Accepted? ==>
          t' == l.t.(reviews := t.reviews + [l.review], grades := t.grades + l.grades, obps := t.obps + l.obps))
    && (NoStoreFaults(f) && l.Broken? ==>
          t'.reviews == t.reviews + [l.review] && t'.obps == t.obps + l.obps)
  }

  /** `processReviewLine` gates exactly as the buffered loop and has the
      same effect on the store line by line, in the sense of SameEffect. */
  lemma ProcessLineMatchesLoop(env: Env, t: Tables, line: string)
    ensures SameEffect(env.faults, t, ClassifyLine(env, t, line), ProcessLine(env, t, line))
  {
    match env.parse(line)
    case None =>
      assert ClassifyLine(env, t, line) == Skipped(t) && ProcessLine(env, t, line) == t;
    case Some(root) =>
      if Validate(env.required, root).Passed? {
        assert ClassifyLine(env, t, line) == ClassifyValid(env, t, root);
        assert ProcessLine(env, t, line) == ProcessValid(env, t, root);
        ProcessValidMatchesLoop(env, t, root);
      } else {
        assert ClassifyLine(env, t, line) == Skipped(t) && ProcessLine(env, t, line) == t;
      }
  }

  lemma ProcessValidMatchesLoop(env: Env, t: Tables, root: Json)
    ensures SameEffect(env.faults, t, ClassifyValid(env, t, root), ProcessValid(env, t, root))
  {
    ResolveKeepsStore(t, root);
    var (t1, refs) := Resolve(t, root);
    if refs.Some? && !t1.ReviewExists(refs.value.reviewId) {
      var review := ReviewOf(env, refs.value);
      var entries := EntriesOf(root);
      CollectSpec(t1, review, entries);
      if NoStoreFaults(env.faults) {
        var s := t1.(reviews := t1.reviews + [review]);
        SaveEntriesNoFaults(env.faults, s, review, entries);
        CollectFrame(t1, s, review, entries);
      }
    }
  }

  /** The entry loop reads only the provider table. */
  lemma {:induction false} CollectFrame(t: Tables, s: Tables, review: Review, entries: seq<Json>)
    requires s.providers == t.providers
    ensures var c := Collect(t, review, entries);
      Collect(s, review, entries) == c.(t := s.(providers := c.t.providers))
    ensures var c := Collect(t, review, entries);
      c.t == t.(providers := c.t.providers)
    decreases |entries|
  {
    if entries != [] {
      var init := entries[..|entries| - 1];
      CollectFrame(t, s, review, init);
      var c := Collect(t, review, init);
      if !c.threw {
        EntryFrame(c.t, s.(providers := c.t.providers), review, entries[|entries| - 1]);
      }
    }
  }

  /** Once an entry has thrown, the later entries change nothing. */
  lemma {:induction false} CollectStaysThrown(t: Tables, review: Review, entries: seq<Json>, i: nat)
    requires i <= |entries|
    requires Collect(t, review, entries[..i]).threw
    ensures Collect(t, review, entries) == Collect(t, review, entries[..i])
    decreases |entries|
  {
    if |entries| == i {
      assert entries[..i] == entries;
    } else {
      var init := entries[..|entries| - 1];
      assert init[..i] == entries[..i];
      CollectStaysThrown(t, review, init, i);
    }
  }

  /** Once the immediate entry loop has thrown, later entries do not run. */
  lemma {:induction false} SaveEntriesStaysThrown(f: Faults, t: Tables, review: Review, entries: seq<Json>, i: nat)
    requires i <= |entries|
    requires SaveEntries(f, t, review, entries[..i]).1
    ensures SaveEntries(f, t, review, entries) == SaveEntries(f, t, review, entries[..i])
    decreases |entries|
  {
    if |entries| == i {
      assert entries[..i] == entries;
    } else {
      var init := entries[..|entries| - 1];
      assert init[..i] == entries[..i];
      SaveEntriesStaysThrown(f, t, review, init, i);
    }
  }

  /** Once a grade save has thrown, later grades are not saved. */
  lemma {:induction false} SaveGradesStaysThrown(f: Faults, t: Tables, gs: seq<Grade>, i: nat)
    requires i <= |gs|
    requires SaveGrades(f, t, gs[..i]).1
    ensures SaveGrades(f, t, gs) == SaveGrades(f, t, gs[..i])
    decreases |gs|
  {
    if |gs| == i {
      assert gs[..i] == gs;
    } else {
      var init := gs[..|gs| - 1];
      assert init[..i] == gs[..i];
      SaveGradesStaysThrown(f, t, init, i);
    }
  }

  // ---------------------------------------------------------------- growth

  /** One iteration of the line loop only grows the store: the reference
      steps keep it and a flush only appends. */
  lemma LineStepGrows(env: Env, r: Run, line: string)
    ensures Grows(r.t, LineStep(env, r, line).t)
  {
    var l := ClassifyLine(env, r.t, line);
    KeepsStoreGrows(r.t, l.t);
    if l.Accepted? {
      var buf := Batch(r.buf.reviews + [l.review], r.buf.grades + [l.grades], r.buf.obps + l.obps);
      if |buf.reviews| >= env.batchSize {
        AppendsGrows(l.t, SaveBatch(env.faults, l.t, buf).0);
        GrowsTransitive(r.t, l.t, SaveBatch(env.faults, l.t, buf).0);
      }
    }
  }

  /** The line loop only grows the store. */
  lemma {:induction false} ImportLinesGrows(env: Env, t: Tables, lines: seq<string>)
    ensures Grows(t, ImportLines(env, t, lines).t)
    decreases |lines|
  {
    if lines != [] {
      var init := lines[..|lines| - 1];
      ImportLinesGrows(env, t, init);
      var r := ImportLines(env, t, init);
      LineStepGrows(env, r, lines[|lines| - 1]);
      GrowsTransitive(t, r.t, LineStep(env, r, lines[|lines| - 1]).t);
    }
  }

  /** The final flush only appends. */
  lemma FinishGrows(env: Env, r: Run, readFails: bool)
    ensures Grows(r.t, Finish(env, r, readFails).0)
  {
    if !(readFails || r.buf.reviews == []) {
      AppendsGrows(r.t, SaveBatch(env.faults, r.t, r.buf).0);
    }
  }

  /** The immediate grade saves only append grades. */
  lemma {:induction false} SaveGradesAppends(f: Faults, t: Tables, gs: seq<Grade>)
    ensures Appends(t, SaveGrades(f, t, gs).0)
    decreases |gs|
  {
    if gs != [] {
      SaveGradesAppends(f, t, gs[..|gs| - 1]);
      var (t1, threw) := SaveGrades(f, t, gs[..|gs| - 1]);
      if !threw && !f.gradeSaveFails(gs[|gs| - 1]) {
        AppendsTransitive(t, t1, t1.(grades := t1.grades + [gs[|gs| - 1]]));
      }
    }
  }

  /** One entry keeps the store: only its provider may be added. */
  lemma EntryKeepsStore(t: Tables, review: Review, overall: Json)
    ensures KeepsStore(t, Entry(t, review, overall).0)
  {
    var pid := Fetch(Some(overall), "providerId");
    var pname := Fetch(Some(overall), "provider");
    if !(pid.Thrown? || pname.Thrown?) {
      UpsertProviderKeepsStore(t, AsLong(pid.value), AsText(pname.value));
    }
  }

  /** One entry of the immediate loop only grows the store. */
  lemma SaveEntryGrows(f: Faults, t: Tables, review: Review, overall: Json)
    ensures Grows(t, SaveEntry(f, t, review, overall).0)
  {
    EntryKeepsStore(t, review, overall);
    var (t2, e) := Entry(t, review, overall);
    if e.Thrown? || f.obpSaveFails(e.value.0) {
      KeepsStoreGrows(t, t2);
    } else {
      RowThenGradesGrow(f, t, t2, e.value.0, e.value.1);
    }
  }

  /** Saving a row and then its grades on top of a kept store grows it. */
  lemma RowThenGradesGrow(f: Faults, t: Tables, t2: Tables, obp: Obp, gs: seq<Grade>)
    requires KeepsStore(t, t2)
    ensures Grows(t, SaveGrades(f, t2.(obps := t2.obps + [obp]), gs).0)
  {
    KeepsStoreGrows(t, t2);
    var t3 := t2.(obps := t2.obps + [obp]);
    assert Grows(t2, t3);
    SaveGradesAppends(f, t3, gs);
    AppendsGrows(t3, SaveGrades(f, t3, gs).0);
    GrowsTransitive(t, t2, t3);
    GrowsTransitive(t, t3, SaveGrades(f, t3, gs).0);
  }

  /** The immediate entry loop only grows the store. */
  lemma {:induction false} SaveEntriesGrows(f: Faults, t: Tables, review: Review, entries: seq<Json>)
    ensures Grows(t, SaveEntries(f, t, review, entries).0)
    decreases |entries|
  {
    if entries != [] {
      var init := entries[..|entries| - 1];
      SaveEntriesGrows(f, t, review, init);
      var (t1, threw) := SaveEntries(f, t, review, init);
      if !threw {
        var last := entries[|entries| - 1];
        assert SaveEntries(f, t, review, entries) == SaveEntry(f, t1, review, last);
        SaveEntryGrows(f, t1, review, last);
        GrowsTransitive(t, t1, SaveEntry(f, t1, review, last).0);
      }
    }
  }

  /** `processReviewLine` on a line that passed the gate only grows the
      store. */
  lemma ProcessValidGrows(env: Env, t: Tables, root: Json)
    ensures Grows(t, ProcessValid(env, t, root))
  {
    ResolveKeepsStore(t, root);
    var (t1, refs) := Resolve(t, root);
    if refs.Some? && !t1.ReviewExists(refs.value.reviewId) && !env.faults.reviewSaveFails(ReviewOf(env, refs.value)) {
      ReviewThenEntriesGrow(env.faults, t, t1, ReviewOf(env, refs.value), EntriesOf(root));
    } else {
      KeepsStoreGrows(t, t1);
    }
  }

  /** Saving a review and then its entries on top of a kept store grows it. */
  lemma ReviewThenEntriesGrow(f: Faults, t: Tables, t1: Tables, review: Review, entries: seq<Json>)
    requires KeepsStore(t, t1)
    ensures Grows(t, SaveEntries(f, t1.(reviews := t1.reviews + [review]), review, entries).0)
  {
    KeepsStoreGrows(t, t1);
    var t2 := t1.(reviews := t1.reviews + [review]);
    assert Grows(t1, t2);
    SaveEntriesGrows(f, t2, review, entries);
    GrowsTransitive(t, t1, t2);
    GrowsTransitive(t, t2, SaveEntries(f, t2, review, entries).0);
  }
}
