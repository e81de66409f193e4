/** `ReviewImportService` as an object over its repositories: each
    repository is a field the methods update in place, and each method is
    proved against the function of the same step in Resolver, BatchWriter or
    Pipeline. */
module Service {
  import opened Wrappers
  import opened Json
  import opened Entities
  import opened Validation
  import Resolver
  import opened Mapping
  import opened BatchWriter
  import opened Pipeline

  /** What one line leaves for the buffers. */
  datatype Handled =
    | Skip
    | Accept(review: Review, grades: seq<Grade>, obps: seq<Obp>)
    | Break(review: Review, obps: seq<Obp>)

  /** The line result a handled line stands for, over the given store. */
  function AsLineResult(h: Handled, t: Tables): LineResult
  {
    match h
    case Skip => Skipped(t)
    case Accept(review, grades, obps) => Accepted(t, review, grades, obps)
    case Break(review, obps) => Broken(t, review, obps)
  }

  class ImportService {
    const env: Env
    var providers: map<int, Provider>
    var hotels: map<int, Hotel>
    var reviewers: seq<Reviewer>
    var reviews: seq<Review>
    var grades: seq<Grade>
    var obps: seq<Obp>

    /** The repositories' contents. */
    function Store(): Tables
      reads this
    {
      Tables(providers, hotels, reviewers, reviews, grades, obps)
    }

    constructor (env: Env, t: Tables)
      ensures this.env == env && Store() == t
    {
      this.env := env;
      providers, hotels, reviewers := t.providers, t.hotels, t.reviewers;
      reviews, grades, obps := t.reviews, t.grades, t.obps;
    }

    /** `validateRequiredFields`: a string builder over the top-level fields,
        an early rejection, then the comment fields read through
        `root.get("comment")` (a null comment throws at the first of them). */
    method ValidateRequiredFields(root: Json) returns (v: Verdict)
      ensures v == Validate(env.required, root)
    {
      var missing := MissingFields(root, env.required.topLevel, "");
      if |missing| > 0 {
        return Missing(missing);
      }
      var comment := Get(root, "comment");
      if env.required.comment == [] {
        return Passed;
      }
      if comment.None? {
        return Threw;
      }
      missing := MissingFields(comment.value, env.required.comment, "comment.");
      if |missing| > 0 {
        return Missing(missing);
      }
      return Passed;
    }

    /** One loop of the string builder: `prefix + field + ", "` for each
        field that is missing or null. */
    method MissingFields(node: Json, fields: seq<string>, prefix: string) returns (missing: string)
      ensures missing == MissingReport(node, fields, prefix)
    {
      missing := "";
      var i := 0;
      while i < |fields|
        invariant 0 <= i <= |fields|
        invariant missing == MissingReport(node, fields[..i], prefix)
      {
        MissingReportStep(node, fields, i, prefix);
        if !HasNonNull(node, fields[i]) {
          missing := missing + prefix + fields[i] + ", ";
        }
        i := i + 1;
      }
      assert fields[..i] == fields;
    }

    /** `upsertProvider`: find by id, else save a new provider. */
    method UpsertProvider(id: int, name: string) returns (p: Provider)
      modifies this
      ensures (Store(), p) == Resolver.UpsertProvider(old(Store()), id, name)
    {
      if id in providers {
        return providers[id];
      }
      p := Provider(id, name);
      providers := providers[id := p];
    }

    /** `upsertHotel`: find by id, else save a new hotel. */
    method UpsertHotel(id: int, name: Option<string>) returns (h: Hotel)
      modifies this
      ensures (Store(), h) == Resolver.UpsertHotel(old(Store()), id, name)
    {
      if id in hotels {
        return hotels[id];
      }
      h := Hotel(id, name);
      hotels := hotels[id := h];
    }

    /** `upsertReviewer`: scan the stored reviewers for the first match on
        (displayName, countryName), else save a new reviewer with the next
        id. */
    method UpsertReviewer(info: Json) returns (r: Reviewer)
      modifies this
      ensures (Store(), r) == Resolver.UpsertReviewer(old(Store()), info)
    {
      var name := OptText(info, "displayMemberName");
      var country := OptText(info, "countryName");
      var k := 0;
      while k < |reviewers|
        invariant 0 <= k <= |reviewers|
        invariant forall j :: 0 <= j < k ==> !Resolver.Matches(reviewers[j], name, country)
      {
        if Resolver.Matches(reviewers[k], name, country) {
          assert Resolver.FirstMatch(reviewers, name, country) == Some(k);
          return reviewers[k];
        }
        k := k + 1;
      }
      r := Resolver.NewReviewer(info, |reviewers| + 1);
      reviewers := reviewers + [r];
    }
 
    /** The reference steps of a validated line, in the source's order. */
    method ResolveReferences(root: Json) returns (refs: Option<Refs>)
      modifies this
      ensures (Store(), refs) == Resolve(old(Store()), root)
    {
      var comment := Get(root, "comment");
      var pid := Fetch(comment, "providerId");
      var pname := Fetch(comment, "reviewProviderText");
      if pid.Thrown? || pname.Thrown? {
        return None;
      }
      var provider := UpsertProvider(AsLong(pid.value), AsText(pname.value));
      var hid := Fetch(Some(root), "hotelId");
      var hname := Fetch(Some(root), "hotelName");
      if hid.Thrown? || hname.Thrown? {
        return None;
      }
      var hotel := UpsertHotel(AsLong(hid.value), HotelName(hname.value));
      var info := Fetch(comment, "reviewerInfo");
      if info.Thrown? {
        return None;
      }
      var reviewer := UpsertReviewer(info.value);
      var rid := Fetch(comment, "hotelReviewId");
      if rid.Thrown? {
        return None;
      }
      return Some(Refs(comment.value, provider, hotel, reviewer, AsLong(rid.value)));
    }

    /** The loop over `overallByProviders`: per entry, upsert its provider,
        append its row, then its grades.  A missing member throws out of the
        loop. */
    method CollectEntries(review: Review, entries: seq<Json>) returns (os: seq<Obp>, gs: seq<Grade>, threw: bool)
      modifies this
      ensures Collect(old(Store()), review, entries) == Collected(Store(), os, gs, threw)
    {
      os, gs, threw := [], [], false;
      var i := 0;
      while i < |entries|
        invariant 0 <= i <= |entries|
        invariant Collect(old(Store()), review, entries[..i]) == Collected(Store(), os, gs, false)
      {
        CollectStep(old(Store()), review, entries, i);
        var e := CollectEntry(review, entries[i]);
        if e.Thrown? {
          threw := true;
          CollectStaysThrown(old(Store()), review, entries, i + 1);
          return;
        }
        os := os + [e.value.0];
        gs := gs + e.value.1;
        i := i + 1;
      }
      assert entries[..i] == entries;
    }

    /** One entry: upsert its provider, build the row, and build its grades. */
    method CollectEntry(review: Review, overall: Json) returns (e: Outcome<(Obp, seq<Grade>)>)
      modifies this
      ensures (Store(), e) == Entry(old(Store()), review, overall)
    {
      var pid := Fetch(Some(overall), "providerId");
      var pname := Fetch(Some(overall), "provider");
      if pid.Thrown? || pname.Thrown? {
        return Thrown;
      }
      var provider := UpsertProvider(AsLong(pid.value), AsText(pname.value));
      var score := Fetch(Some(overall), "overallScore");
      var count := Fetch(Some(overall), "reviewCount");
      if score.Thrown? || count.Thrown? {
        return Thrown;
      }
      var obp := Obp(review, provider, AsDouble(score.value), AsLong(count.value));
      var gs := [];
      if Has(overall, "grades") {
        gs := GradesOfNode(review, Get(overall, "grades").value);
      }
      return Ok((obp, gs));
    }

    /** The iteration over the field names of a `grades` node. */
    method GradesOfNode(review: Review, node: Json) returns (gs: seq<Grade>)
      ensures gs == GradesOf(review, node)
    {
      var fields := FieldNames(node);
      gs := [];
      var k := 0;
      while k < |fields|
        invariant 0 <= k <= |fields|
        invariant gs == GradesFor(review, node, fields[..k])
      {
        assert fields[..k + 1][..k] == fields[..k];
        gs := gs + [Grade(review, fields[k], AsDouble(Get(node, fields[k]).value))];
        k := k + 1;
      }
      assert fields[..k] == fields;
    }

    /** One line of `parseAndImportJLFile` up to the buffers: parse, gate,
        resolve, skip a stored review id, map the review and collect its
        rows and grades.  Every exception of the line ends in a skip or, after
        the review was built, a break. */
    method ImportLine(line: string) returns (h: Handled)
      modifies this
      ensures ClassifyLine(env, old(Store()), line) == AsLineResult(h, Store())
    {
      var parsed := env.parse(line);
      if parsed.None? {
        return Skip;
      }
      var root := parsed.value;
      var verdict := ValidateRequiredFields(root);
      if !verdict.Passed? {
        return Skip;
      }
      var refs := ResolveReferences(root);
      if refs.None? || Store().ReviewExists(refs.value.reviewId) {
        return Skip;
      }
      var review := ReviewOf(env, refs.value);
      var os, gs, threw := CollectEntries(review, EntriesOf(root));
      if threw {
        return Break(review, os);
      }
      return Accept(review, gs, os);
    }
 
    /** `saveBatchWithRetry`: the bulk saves, and on the first failure the
        retry loop. */
    method SaveBatchWithRetry(b: Batch) returns (threw: bool)
      modifies this
      ensures (Store(), threw) == SaveBatch(env.faults, old(Store()), b)
    {
      if env.faults.reviewsSaveAllFails(b.reviews) {
        threw := RetryIndividually(b);
        return;
      }
      reviews := reviews + b.reviews;
      var all := [];
      var i := 0;
      while i < |b.grades|
        invariant 0 <= i <= |b.grades|
        invariant all == Flatten(b.grades[..i])
      {
        assert b.grades[..i + 1][..i] == b.grades[..i];
        all := all + b.grades[i];
        i := i + 1;
      }
      assert b.grades[..i] == b.grades;
      if all != [] {
        if env.faults.gradesSaveAllFails(all) {
          threw := RetryIndividually(b);
          return;
        }
        grades := grades + all;
      } else {
        assert grades + all == grades;
      }
      if b.obps != [] {
        if env.faults.obpsSaveAllFails(b.obps) {
          threw := RetryIndividually(b);
          return;
        }
        obps := obps + b.obps;
      } else {
        assert obps + b.obps == obps;
      }
      threw := false;
    }

    /** The retry loop of `saveBatchWithRetry`: save each review on its own;
        after a successful save, save the grade list at the same position
        and then every row referring to the review, each on its own.  A
        missing grade list throws out of the loop. */
    method RetryIndividually(b: Batch) returns (threw: bool)
      modifies this
      ensures (Store(), threw) == Retry(env.faults, old(Store()), b, |b.reviews|)
    {
      var f := env.faults;
      var i := 0;
      while i < |b.reviews|
        invariant 0 <= i <= |b.reviews|
        invariant Retry(f, old(Store()), b, i) == (Store(), false)
      {
        var review := b.reviews[i];
        if f.reviewSaveFails(review) {
          i := i + 1;
          continue;
        }
        reviews := reviews + [review];
        if i >= |b.grades| {
          threw := true;
          RetryStaysThrown(f, old(Store()), b, i + 1, |b.reviews|);
          return;
        }
        SaveGradesIsolated(b.grades[i]);
        SaveRowsIsolated(b.obps, review);
        i := i + 1;
      }
      threw := false;
    }

    /** The grades of one review saved one by one, each failure isolated. */
    method SaveGradesIsolated(gl: seq<Grade>)
      modifies this
      ensures Store() == old(Store()).(grades := old(grades) + Saved(gl, env.faults.gradeSaveFails))
    {
      var f := env.faults;
      var j := 0;
      while j < |gl|
        invariant 0 <= j <= |gl|
        invariant Store() == old(Store()).(grades := old(grades) + Saved(gl[..j], f.gradeSaveFails))
      {
        SavedSnoc(gl[..j], gl[j], f.gradeSaveFails);
        assert gl[..j + 1] == gl[..j] + [gl[j]];
        if !f.gradeSaveFails(gl[j]) {
          grades := grades + [gl[j]];
        }
        j := j + 1;
      }
      assert gl[..j] == gl;
    }

    /** The rows referring to one review saved one by one, each failure
        isolated. */
    method SaveRowsIsolated(rows: seq<Obp>, review: Review)
      modifies this
      ensures Store() == old(Store()).(obps := old(obps) + Saved(ObpsOf(rows, review), env.faults.obpSaveFails))
    {
      var f := env.faults;
      var k := 0;
      while k < |rows|
        invariant 0 <= k <= |rows|
        invariant Store() == old(Store()).(obps := old(obps) + Saved(ObpsOf(rows[..k], review), f.obpSaveFails))
      {
        assert rows[..k + 1][..k] == rows[..k];
        var o := rows[k];
        assert ObpsOf(rows[..k + 1], review) == ObpsOf(rows[..k], review) + if o.review == review then [o] else [];
        SavedSnoc(ObpsOf(rows[..k], review), o, f.obpSaveFails);
        if o.review == review && !f.obpSaveFails(o) {
          obps := obps + [o];
        } else if o.review != review {
          assert ObpsOf(rows[..k], review) + [] == ObpsOf(rows[..k], review);
        }
        k := k + 1;
      }
      assert rows[..k] == rows;
    }

    /** `parseAndImportJLFile` over the lines read: buffer what each line
        leaves, flush and clear at the batch size (the clearing is skipped
        when the flush throws), and flush a non-empty remainder unless
        reading failed.  `sent` records the batches handed to the writer. */
    method ParseAndImportJLFile(lines: seq<string>, readFails: bool) returns (ghost sent: seq<Batch>)
      modifies this
      ensures (Store(), sent) == ImportFile(env, old(Store()), lines, readFails)
    {
      var reviewBatch: seq<Review> := [];
      var gradesBatch: seq<seq<Grade>> := [];
      var obpBatch: seq<Obp> := [];
      sent := [];
      var i := 0;
      while i < |lines|
        invariant 0 <= i <= |lines|
        invariant ImportLines(env, old(Store()), lines[..i]) == Run(Store(), Batch(reviewBatch, gradesBatch, obpBatch), sent)
      {
        assert lines[..i + 1][..i] == lines[..i];
        ghost var r := Run(Store(), Batch(reviewBatch, gradesBatch, obpBatch), sent);
        var h := ImportLine(lines[i]);
        assert ImportLines(env, old(Store()), lines[..i + 1]) == Apply(env, r, AsLineResult(h, Store()));
        match h {
          case Skip =>
          case Break(review, os) =>
            reviewBatch := reviewBatch + [review];
            obpBatch := obpBatch + os;
          case Accept(review, gs, os) =>
            reviewBatch := reviewBatch + [review];
            gradesBatch := gradesBatch + [gs];
            obpBatch := obpBatch + os;
            if |reviewBatch| >= env.batchSize {
              var batch := Batch(reviewBatch, gradesBatch, obpBatch);
              var threw := SaveBatchWithRetry(batch);
              sent := sent + [batch];
              if !threw {
                reviewBatch, gradesBatch, obpBatch := [], [], [];
              }
            }
        }
        i := i + 1;
      }
      assert lines[..i] == lines;
      if !readFails && reviewBatch != [] {
        var batch := Batch(reviewBatch, gradesBatch, obpBatch);
        var _ := SaveBatchWithRetry(batch);
        sent := sent + [batch];
      }
    }

    /** `processReviewLine`: the same gate and references, then every row
        saved at once; a failing save ends the line. */
    method ProcessReviewLine(line: string)
      modifies this
      ensures Store() == ProcessLine(env, old(Store()), line)
    {
      var parsed := env.parse(line);
      if parsed.None? {
        return;
      }
      var root := parsed.value;
      var verdict := ValidateRequiredFields(root);
      if !verdict.Passed? {
        return;
      }
      var refs := ResolveReferences(root);
      if refs.None? || Store().ReviewExists(refs.value.reviewId) {
        return;
      }
      var review := ReviewOf(env, refs.value);
      if env.faults.reviewSaveFails(review) {
        return;
      }
      reviews := reviews + [review];
      var _ := SaveEntriesNow(review, EntriesOf(root));
    }

    /** The entry loop of `processReviewLine`: upsert, build and save the row,
        then save its grades one by one. */
    method SaveEntriesNow(review: Review, entries: seq<Json>) returns (threw: bool)
      modifies this
      ensures (Store(), threw) == SaveEntries(env.faults, old(Store()), review, entries)
    {
      var i := 0;
      while i < |entries|
        invariant 0 <= i <= |entries|
        invariant SaveEntries(env.faults, old(Store()), review, entries[..i]) == (Store(), false)
      {
        SaveEntriesStep(env.faults, old(Store()), review, entries, i);
        threw := SaveEntryNow(review, entries[i]);
        if threw {
          SaveEntriesStaysThrown(env.faults, old(Store()), review, entries, i + 1);
          return;
        }
        i := i + 1;
      }
      assert entries[..i] == entries;
      threw := false;
    }

    /** One entry: its provider, its row, then its grades. */
    method SaveEntryNow(review: Review, overall: Json) returns (threw: bool)
      modifies this
      ensures (Store(), threw) == SaveEntry(env.faults, old(Store()), review, overall)
    {
      var e := CollectEntry(review, overall);
      if e.Thrown? || env.faults.obpSaveFails(e.value.0) {
        return true;
      }
      obps := obps + [e.value.0];
      threw := SaveGradesNow(e.value.1);
    }

    /** Grades saved one by one; the first failing save throws. */
    method SaveGradesNow(gs: seq<Grade>) returns (threw: bool)
      modifies this
      ensures (Store(), threw) == SaveGrades(env.faults, old(Store()), gs)
    {
      var j := 0;
      while j < |gs|
        invariant 0 <= j <= |gs|
        invariant SaveGrades(env.faults, old(Store()), gs[..j]) == (Store(), false)
      {
        assert gs[..j + 1][..j] == gs[..j];
        if env.faults.gradeSaveFails(gs[j]) {
          SaveGradesStaysThrown(env.faults, old(Store()), gs, j + 1);
          return true;
        }
        grades := grades + [gs[j]];
        j := j + 1;
      }
      assert gs[..j] == gs;
      return false;
    }
  }
}
