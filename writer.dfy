/** `saveBatchWithRetry`: one bulk save per kind of row, and on any bulk
    failure a retry of every review with its dependent rows, one save at a
    time, each failure isolated. */
module BatchWriter {
  import opened Entities

  /** Which store calls fail.  The store is outside the model, so failure is
      an oracle: per list for the bulk `saveAll` calls, per record for the
      single `save` calls. */
  datatype Faults = Faults(
    reviewsSaveAllFails: seq<Review> -> bool,
    gradesSaveAllFails: seq<Grade> -> bool,
    obpsSaveAllFails: seq<Obp> -> bool,
    reviewSaveFails: Review -> bool,
    gradeSaveFails: Grade -> bool,
    obpSaveFails: Obp -> bool)

  /** The three buffers handed to the writer: the reviews, one grade list per
      review (by position), and the overall-by-provider rows. */
  datatype Batch = Batch(reviews: seq<Review>, grades: seq<seq<Grade>>, obps: seq<Obp>)

  const EmptyBatch := Batch([], [], [])

  /** All grade lists, concatenated in order. */
  function Flatten(gss: seq<seq<Grade>>): seq<Grade>
    decreases |gss|
  {
    if gss == [] then [] else Flatten(gss[..|gss| - 1]) + gss[|gss| - 1]
  }

  /** The records a loop of isolated single saves writes: those whose save
      does not fail, in order. */
  function Saved<T>(xs: seq<T>, fails: T -> bool): seq<T>
    decreases |xs|
  {
    if xs == [] then []
    else Saved(xs[..|xs| - 1], fails) + (if fails(xs[|xs| - 1]) then [] else [xs[|xs| - 1]])
  }

  /** One more record of the isolated saves. */
  lemma SavedStep<T>(xs: seq<T>, fails: T -> bool, n: nat)
    requires 0 < n <= |xs|
    ensures Saved(xs[..n], fails) == Saved(xs[..n - 1], fails) + (if fails(xs[n - 1]) then [] else [xs[n - 1]])
  {
    assert xs[..n][..n - 1] == xs[..n - 1];
  }

  /** The overall-by-provider rows that refer to this review object. */
  function ObpsOf(obps: seq<Obp>, review: Review): seq<Obp>
    decreases |obps|
  {
    if obps == [] then []
    else ObpsOf(obps[..|obps| - 1], review) + (if obps[|obps| - 1].review == review then [obps[|obps| - 1]] else [])
  }

  /** Iteration `i` of the retry loop: save review `i`; if that fails, go on
      with the next review.  Then read grade list `i`, which throws when the
      grade buffer is shorter than the review buffer; otherwise save each of
      its grades and each row referring to the review, each failure
      isolated.  The flag says the iteration threw. */
  function RetryOne(f: Faults, t: Tables, b: Batch, i: nat): (Tables, bool)
    requires i < |b.reviews|
  {
    var r := b.reviews[i];
    if f.reviewSaveFails(r) then (t, false)
    else if i >= |b.grades| then (t.(reviews := t.reviews + [r]), true)
    else (t.(reviews := t.reviews + [r],
             grades := t.grades + Saved(b.grades[i], f.gradeSaveFails),
             obps := t.obps + Saved(ObpsOf(b.obps, r), f.obpSaveFails)), false)
  }

  /** The first `n` iterations of the retry loop; a throw ends the loop. */
  function Retry(f: Faults, t: Tables, b: Batch, n: nat): (Tables, bool)
    requires n <= |b.reviews|
    decreases n
  {
    if n == 0 then (t, false)
    else
      var (t1, threw) := Retry(f, t, b, n - 1);
      if threw then (t1, true) else RetryOne(f, t1, b, n - 1)
  }

  /** `saveBatchWithRetry`: bulk-save the reviews, then the flattened grades,
      then the rows (an empty list is not saved); the first failing bulk save
      sends the whole batch to the retry loop, on top of whatever the earlier
      bulk saves wrote.  The flag says the retry threw.  Whatever fails, the
      writer only appends rows and leaves the reference tables alone. */
  function SaveBatch(f: Faults, t: Tables, b: Batch): (r: (Tables, bool))
    ensures Appends(t, r.0)
  {
    if f.reviewsSaveAllFails(b.reviews) then
      RetryWritesSurvivors(f, t, b, |b.reviews|);
      Retry(f, t, b, |b.reviews|)
    else
      var t1 := t.(reviews := t.reviews + b.reviews);
      var all := Flatten(b.grades);
      if all != [] && f.gradesSaveAllFails(all) then
        RetryWritesSurvivors(f, t1, b, |b.reviews|);
        AppendsTransitive(t, t1, Retry(f, t1, b, |b.reviews|).0);
        Retry(f, t1, b, |b.reviews|)
      else
        var t2 := t1.(grades := t1.grades + all);
        AppendsTransitive(t, t1, t2);
        if b.obps != [] && f.obpsSaveAllFails(b.obps) then
          RetryWritesSurvivors(f, t2, b, |b.reviews|);
          AppendsTransitive(t, t2, Retry(f, t2, b, |b.reviews|).0);
          Retry(f, t2, b, |b.reviews|)
        else
          AppendsTransitive(t, t2, t2.(obps := t2.obps + b.obps));
          (t2.(obps := t2.obps + b.obps), false)
  }

  /** The buffers are aligned: one grade list per review, every grade of list
      `i` refers to review `i`, every row refers to a buffered review. */
  predicate Aligned(b: Batch)
  {
    && |b.grades| == |b.reviews|
    && (forall i, g :: 0 <= i < |b.grades| && g in b.grades[i] ==> g.review == b.reviews[i])
    && (forall o :: o in b.obps ==> o.review in b.reviews)
  }

  /** A grade is in the flattened list exactly when it is in one of the lists. */
  lemma {:induction false} FlattenMembers(gss: seq<seq<Grade>>, g: Grade)
    ensures g in Flatten(gss) <==> exists i :: 0 <= i < |gss| && g in gss[i]
    ensures |Flatten(gss)| == 0 <==> forall i :: 0 <= i < |gss| ==> gss[i] == []
    decreases |gss|
  {
    if gss != [] {
      var init := gss[..|gss| - 1];
      FlattenMembers(init, g);
      assert forall i :: 0 <= i < |init| ==> init[i] == gss[i];
      assert Flatten(gss) == Flatten(init) + gss[|gss| - 1];
    }
  }

  /** Isolated single saves write a record exactly when it is buffered and
      its own save does not fail. */
  lemma {:induction false} SavedMembers<T>(xs: seq<T>, fails: T -> bool)
    ensures forall x :: x in Saved(xs, fails) <==> x in xs && !fails(x)
    decreases |xs|
  {
    if xs != [] {
      SavedMembers(xs[..|xs| - 1], fails);
      assert xs == xs[..|xs| - 1] + [xs[|xs| - 1]];
    }
  }

  /** Isolated single saves write each record exactly as often as it is
      buffered, unless its save fails, in which case never. */
  lemma {:induction false} SavedCounts<T>(xs: seq<T>, fails: T -> bool)
    ensures forall x :: multiset(Saved(xs, fails))[x] == if fails(x) then 0 else multiset(xs)[x]
    decreases |xs|
  {
    if xs != [] {
      var init := xs[..|xs| - 1];
      var last := xs[|xs| - 1];
      SavedCounts(init, fails);
      assert xs == init + [last];
      assert multiset(xs) == multiset(init) + multiset{last};
      var tail := if fails(last) then [] else [last];
      assert Saved(xs, fails) == Saved(init, fails) + tail;
      assert multiset(Saved(xs, fails)) == multiset(Saved(init, fails)) + multiset(tail);
    }
  }

  /** A row is among ObpsOf exactly when it is a row of that review. */
  lemma {:induction false} ObpsOfMembers(obps: seq<Obp>, review: Review)
    ensures forall o :: o in ObpsOf(obps, review) <==> o in obps && o.review == review
    decreases |obps|
  {
    if obps != [] {
      ObpsOfMembers(obps[..|obps| - 1], review);
      assert obps == obps[..|obps| - 1] + [obps[|obps| - 1]];
    }
  }

  /** The bulk path, when no bulk save fails: reviews, then all grades
      flattened, then all rows, each appended in buffer order, and nothing
      else changes. */
  lemma BulkSaveOrder(f: Faults, t: Tables, b: Batch)
    requires !f.reviewsSaveAllFails(b.reviews)
    requires Flatten(b.grades) != [] ==> !f.gradesSaveAllFails(Flatten(b.grades))
    requires b.obps != [] ==> !f.obpsSaveAllFails(b.obps)
    ensures SaveBatch(f, t, b) ==
      (t.(reviews := t.reviews + b.reviews, grades := t.grades + Flatten(b.grades), obps := t.obps + b.obps), false)
  {
  }

  /** `t'` is `t` with rows appended to its write logs and the reference
      tables unchanged. */
  predicate Appends(t: Tables, t': Tables)
  {
    && t'.providers == t.providers && t'.hotels == t.hotels && t'.reviewers == t.reviewers
    && |t.reviews| <= |t'.reviews| && t'.reviews[..|t.reviews|] == t.reviews
    && |t.grades| <= |t'.grades| && t'.grades[..|t.grades|] == t.grades
    && |t.obps| <= |t'.obps| && t'.obps[..|t.obps|] == t.obps
  }

  /** Appending rows is a way of growing the store. */
  lemma AppendsGrows(t: Tables, t': Tables)
    requires Appends(t, t')
    ensures Grows(t, t')
  {
  }

  lemma AppendsTransitive(t: Tables, t1: Tables, t2: Tables)
    requires Appends(t, t1) && Appends(t1, t2)
    ensures Appends(t, t2)
  {
    assert t2.reviews[..|t.reviews|] == t2.reviews[..|t1.reviews|][..|t.reviews|];
    assert t2.grades[..|t.grades|] == t2.grades[..|t1.grades|][..|t.grades|];
    assert t2.obps[..|t.obps|] == t2.obps[..|t1.obps|][..|t.obps|];
  }

  /** One iteration of the retry loop only appends; with a grade list for
      its review it does not throw and writes the review exactly when its
      save does not fail. */
  lemma RetryOneAppends(f: Faults, t: Tables, b: Batch, i: nat)
    requires i < |b.reviews|
    ensures Appends(t, RetryOne(f, t, b, i).0)
    ensures i < |b.grades| ==>
      !RetryOne(f, t, b, i).1 &&
      RetryOne(f, t, b, i).0.reviews == t.reviews + (if f.reviewSaveFails(b.reviews[i]) then [] else [b.reviews[i]])
  {
  }

  /** The retry loop only appends rows, leaves the reference tables alone,
      and, when there is a grade list for every review, never throws and
      writes each review exactly when its own save succeeds, in order. */
  lemma {:induction false} RetryWritesSurvivors(f: Faults, t: Tables, b: Batch, n: nat)
    requires n <= |b.reviews|
    ensures Appends(t, Retry(f, t, b, n).0)
    ensures |b.grades| >= |b.reviews| ==>
      !Retry(f, t, b, n).1 && Retry(f, t, b, n).0.reviews == t.reviews + Saved(b.reviews[..n], f.reviewSaveFails)
    decreases n
  {
    if n > 0 {
      RetryWritesSurvivors(f, t, b, n - 1);
      var (t1, threw) := Retry(f, t, b, n - 1);
      if !threw {
        RetrySurvivorsStep(f, t, b, n, t1);
      }
    }
  }

  /** Iteration `n - 1` of the retry loop on top of `t1`, what the earlier
      iterations wrote without throwing. */
  lemma RetrySurvivorsStep(f: Faults, t: Tables, b: Batch, n: nat, t1: Tables)
    requires 0 < n <= |b.reviews|
    requires Appends(t, t1)
    requires |b.grades| >= |b.reviews| ==> t1.reviews == t.reviews + Saved(b.reviews[..n - 1], f.reviewSaveFails)
    ensures Appends(t, RetryOne(f, t1, b, n - 1).0)
    ensures |b.grades| >= |b.reviews| ==>
      !RetryOne(f, t1, b, n - 1).1 &&
      RetryOne(f, t1, b, n - 1).0.reviews == t.reviews + Saved(b.reviews[..n], f.reviewSaveFails)
  {
    RetryOneAppends(f, t1, b, n - 1);
    AppendsTransitive(t, t1, RetryOne(f, t1, b, n - 1).0);
    SavedStep(b.reviews, f.reviewSaveFails, n);
  }

  /** With a grade list for every review the retry loop never throws. */
  lemma {:induction false} RetryNoThrow(f: Faults, t: Tables, b: Batch, n: nat)
    requires n <= |b.reviews| <= |b.grades|
    ensures !Retry(f, t, b, n).1
    decreases n
  {
    if n > 0 {
      RetryNoThrow(f, t, b, n - 1);
    }
  }

  /** With a grade list for every review, step `n` of the retry loop is
      iteration `n - 1` on top of the first `n - 1`. */
  lemma RetryStep(f: Faults, t: Tables, b: Batch, n: nat)
    requires 0 < n <= |b.reviews| <= |b.grades|
    ensures Retry(f, t, b, n).0 == RetryOne(f, Retry(f, t, b, n - 1).0, b, n - 1).0
  {
    RetryNoThrow(f, t, b, n - 1);
  }

  /** The grades one iteration appends: none when the review's save fails,
      otherwise those of its list whose own save succeeds. */
  lemma RetryOneGrades(f: Faults, t: Tables, b: Batch, i: nat)
    requires i < |b.reviews| <= |b.grades|
    ensures RetryOne(f, t, b, i).0.grades ==
      t.grades + if f.reviewSaveFails(b.reviews[i]) then [] else Saved(b.grades[i], f.gradeSaveFails)
  {
    if f.reviewSaveFails(b.reviews[i]) {
      assert t.grades + [] == t.grades;
    }
  }

  /** The rows one iteration appends: none when the review's save fails,
      otherwise those referring to the review whose own save succeeds. */
  lemma RetryOneObps(f: Faults, t: Tables, b: Batch, i: nat)
    requires i < |b.reviews| <= |b.grades|
    ensures RetryOne(f, t, b, i).0.obps ==
      t.obps + if f.reviewSaveFails(b.reviews[i]) then [] else Saved(ObpsOf(b.obps, b.reviews[i]), f.obpSaveFails)
  {
    if f.reviewSaveFails(b.reviews[i]) {
      assert t.obps + [] == t.obps;
    }
  }

  /** What the retry loop writes into the grade table, for aligned buffers:
      a grade only of a review whose save succeeded and only if its own save
      succeeded, and every such grade.  So a review whose save fails gets
      none of its grades saved, and a failing grade save stops nothing else. */
  lemma {:induction false} RetryGrades(f: Faults, t: Tables, b: Batch, n: nat)
    requires n <= |b.reviews| <= |b.grades|
    ensures |t.grades| <= |Retry(f, t, b, n).0.grades|
    ensures forall g :: g in Retry(f, t, b, n).0.grades[|t.grades|..] <==> GradeKept(f, b, n, g)
    decreases n
  {
    if n > 0 {
      RetryGrades(f, t, b, n - 1);
      RetryStep(f, t, b, n);
      var t1 := Retry(f, t, b, n - 1).0;
      var t' := Retry(f, t, b, n).0;
      RetryOneGrades(f, t1, b, n - 1);
      var newG := if f.reviewSaveFails(b.reviews[n - 1]) then [] else Saved(b.grades[n - 1], f.gradeSaveFails);
      assert t'.grades == t1.grades + newG;
      var added := t'.grades[|t.grades|..];
      var before := t1.grades[|t.grades|..];
      assert added == before + newG;
      SavedMembers(b.grades[n - 1], f.gradeSaveFails);
      forall g ensures g in added <==> GradeKept(f, b, n, g) {
        GradeKeptStep(f, b, n, g);
        assert g in added <==> g in before || g in newG;
      }
    }
  }

  /** The grade `g` belongs to list `i` of one of the first `n` reviews, and
      neither that review's save nor its own fails. */
  ghost predicate GradeKept(f: Faults, b: Batch, n: nat, g: Grade)
    requires n <= |b.reviews| <= |b.grades|
  {
    exists i :: 0 <= i < n && !f.reviewSaveFails(b.reviews[i]) && g in b.grades[i] && !f.gradeSaveFails(g)
  }

  /** A grade kept by the first `n` iterations is one kept by the first
      `n - 1` or one kept by iteration `n - 1`. */
  lemma GradeKeptStep(f: Faults, b: Batch, n: nat, g: Grade)
    requires 0 < n <= |b.reviews| <= |b.grades|
    ensures GradeKept(f, b, n, g) <==>
      GradeKept(f, b, n - 1, g) || (!f.reviewSaveFails(b.reviews[n - 1]) && g in b.grades[n - 1] && !f.gradeSaveFails(g))
  {
    if GradeKept(f, b, n, g) {
      var i :| 0 <= i < n && !f.reviewSaveFails(b.reviews[i]) && g in b.grades[i] && !f.gradeSaveFails(g);
      if i < n - 1 {
        assert GradeKept(f, b, n - 1, g);
      }
    }
  }

  /** What the retry loop writes into the overall-by-provider table, for
      aligned buffers: a row only of a review whose save succeeded and only
      if its own save succeeded, and every such row. */
  lemma {:induction false} RetryObps(f: Faults, t: Tables, b: Batch, n: nat)
    requires n <= |b.reviews| <= |b.grades|
    ensures |t.obps| <= |Retry(f, t, b, n).0.obps|
    ensures forall o :: o in Retry(f, t, b, n).0.obps[|t.obps|..] <==>
      o in b.obps && o.review in b.reviews[..n] && !f.reviewSaveFails(o.review) && !f.obpSaveFails(o)
    decreases n
  {
    if n > 0 {
      RetryObps(f, t, b, n - 1);
      RetryStep(f, t, b, n);
      var r := b.reviews[n - 1];
      var t1 := Retry(f, t, b, n - 1).0;
      var t' := Retry(f, t, b, n).0;
      RetryOneObps(f, t1, b, n - 1);
      SavedMembers(ObpsOf(b.obps, r), f.obpSaveFails);
      ObpsOfMembers(b.obps, r);
      var newO := if f.reviewSaveFails(r) then [] else Saved(ObpsOf(b.obps, r), f.obpSaveFails);
      assert t'.obps == t1.obps + newO;
      assert t'.obps[|t.obps|..] == t1.obps[|t.obps|..] + newO;
      ObpsKeptStep(f, b, n, t1.obps[|t.obps|..], newO);
    }
  }

  /** The rows kept by the first `n` iterations are those kept by the first
      `n - 1` followed by those iteration `n - 1` keeps. */
  lemma ObpsKeptStep(f: Faults, b: Batch, n: nat, before: seq<Obp>, newO: seq<Obp>)
    requires 0 < n <= |b.reviews|
    requires forall o :: o in before <==>
      o in b.obps && o.review in b.reviews[..n - 1] && !f.reviewSaveFails(o.review) && !f.obpSaveFails(o)
    requires forall o :: o in newO <==>
      !f.reviewSaveFails(b.reviews[n - 1]) && o in b.obps && o.review == b.reviews[n - 1] && !f.obpSaveFails(o)
    ensures forall o :: o in before + newO <==>
      o in b.obps && o.review in b.reviews[..n] && !f.reviewSaveFails(o.review) && !f.obpSaveFails(o)
  {
    assert b.reviews[..n] == b.reviews[..n - 1] + [b.reviews[n - 1]];
  }

  /** On the retry path with a grade list for every review, each review
      whose save succeeds is written as often as it is buffered, and one
      whose save fails is never written: a single bad review does not stop
      the others. */
  lemma IsolatesBadReviews(f: Faults, t: Tables, b: Batch)
    requires |b.grades| >= |b.reviews|
    requires f.reviewsSaveAllFails(b.reviews)
    ensures !SaveBatch(f, t, b).1
    ensures forall r ::
      multiset(SaveBatch(f, t, b).0.reviews)[r] == multiset(t.reviews)[r] + if f.reviewSaveFails(r) then 0 else multiset(b.reviews)[r]
  {
    assert SaveBatch(f, t, b) == Retry(f, t, b, |b.reviews|);
    RetryWritesSurvivors(f, t, b, |b.reviews|);
    SavedCounts(b.reviews, f.reviewSaveFails);
    assert b.reviews[..|b.reviews|] == b.reviews;
    var t' := SaveBatch(f, t, b).0;
    assert t'.reviews == t.reviews + Saved(b.reviews, f.reviewSaveFails);
    assert multiset(t'.reviews) == multiset(t.reviews) + multiset(Saved(b.reviews, f.reviewSaveFails));
  }

  /** The retry path for aligned buffers: every grade and row written
      belongs to a review written by the same retry, whose own save did not
      fail; every grade and row of such a review whose own save does not
      fail is written. */
  lemma RetryPathDependents(f: Faults, t: Tables, b: Batch)
    requires Aligned(b)
    requires f.reviewsSaveAllFails(b.reviews)
    ensures var t' := SaveBatch(f, t, b).0;
      && |t.reviews| <= |t'.reviews| && |t.grades| <= |t'.grades| && |t.obps| <= |t'.obps|
      && (forall g :: g in t'.grades[|t.grades|..] ==>
            !f.reviewSaveFails(g.review) && !f.gradeSaveFails(g) && g.review in t'.reviews[|t.reviews|..])
      && (forall o :: o in t'.obps[|t.obps|..] ==>
            !f.reviewSaveFails(o.review) && !f.obpSaveFails(o) && o.review in t'.reviews[|t.reviews|..])
      && (forall i, g :: 0 <= i < |b.reviews| && !f.reviewSaveFails(b.reviews[i]) && g in b.grades[i] && !f.gradeSaveFails(g) ==>
            g in t'.grades[|t.grades|..])
      && (forall o :: o in b.obps && !f.reviewSaveFails(o.review) && !f.obpSaveFails(o) ==> o in t'.obps[|t.obps|..])
  {
    var n := |b.reviews|;
    assert SaveBatch(f, t, b) == Retry(f, t, b, n);
    assert b.reviews[..n] == b.reviews;
    RetryWritesSurvivors(f, t, b, n);
    RetryGrades(f, t, b, n);
    RetryObps(f, t, b, n);
    SavedMembers(b.reviews, f.reviewSaveFails);
    var t' := SaveBatch(f, t, b).0;
    assert t'.reviews[|t.reviews|..] == Saved(b.reviews, f.reviewSaveFails);
    forall g | g in t'.grades[|t.grades|..]
      ensures !f.reviewSaveFails(g.review) && !f.gradeSaveFails(g) && g.review in t'.reviews[|t.reviews|..]
    {
      assert GradeKept(f, b, n, g);
      var i :| 0 <= i < n && !f.reviewSaveFails(b.reviews[i]) && g in b.grades[i] && !f.gradeSaveFails(g);
      assert g.review == b.reviews[i];
    }
    forall i, g | 0 <= i < n && !f.reviewSaveFails(b.reviews[i]) && g in b.grades[i] && !f.gradeSaveFails(g)
      ensures g in t'.grades[|t.grades|..]
    {
      assert GradeKept(f, b, n, g);
    }
  }

  /** A grade bulk save that fails after the review bulk save succeeded:
      the retry runs on a store that already holds every buffered review, so
      each review whose own save succeeds is written twice, once by the bulk
      save and once by the retry; grades and rows are written exactly as on
      the retry path. */
  lemma GradeBulkFailureRetries(f: Faults, t: Tables, b: Batch)
    requires |b.grades| >= |b.reviews|
    requires !f.reviewsSaveAllFails(b.reviews)
    requires Flatten(b.grades) != [] && f.gradesSaveAllFails(Flatten(b.grades))
    ensures var (t', threw) := SaveBatch(f, t, b);
      && !threw
      && t'.reviews == t.reviews + b.reviews + Saved(b.reviews, f.reviewSaveFails)
      && |t.grades| <= |t'.grades|
      && (forall g :: g in t'.grades[|t.grades|..] <==> GradeKept(f, b, |b.reviews|, g))
      && |t.obps| <= |t'.obps|
      && (forall o :: o in t'.obps[|t.obps|..] <==>
            o in b.obps && o.review in b.reviews && !f.reviewSaveFails(o.review) && !f.obpSaveFails(o))
  {
    var n := |b.reviews|;
    var t1 := t.(reviews := t.reviews + b.reviews);
    assert SaveBatch(f, t, b) == Retry(f, t1, b, n);
    assert b.reviews[..n] == b.reviews;
    RetryWritesSurvivors(f, t1, b, n);
    RetryGrades(f, t1, b, n);
    RetryObps(f, t1, b, n);
  }

  /** A row bulk save that fails after the review and grade bulk saves
      succeeded: the retry runs on a store that already holds every buffered
      review and grade, so each surviving review and each of its surviving
      grades is written a second time after them. */
  lemma ObpBulkFailureRetries(f: Faults, t: Tables, b: Batch)
    requires |b.grades| >= |b.reviews|
    requires !f.reviewsSaveAllFails(b.reviews)
    requires !(Flatten(b.grades) != [] && f.gradesSaveAllFails(Flatten(b.grades)))
    requires b.obps != [] && f.obpsSaveAllFails(b.obps)
    ensures var (t', threw) := SaveBatch(f, t, b);
      && !threw
      && t'.reviews == t.reviews + b.reviews + Saved(b.reviews, f.reviewSaveFails)
      && |t.grades| + |Flatten(b.grades)| <= |t'.grades|
      && t'.grades[..|t.grades| + |Flatten(b.grades)|] == t.grades + Flatten(b.grades)
      && (forall g :: g in t'.grades[|t.grades| + |Flatten(b.grades)|..] <==> GradeKept(f, b, |b.reviews|, g))
      && |t.obps| <= |t'.obps|
      && (forall o :: o in t'.obps[|t.obps|..] <==>
            o in b.obps && o.review in b.reviews && !f.reviewSaveFails(o.review) && !f.obpSaveFails(o))
  {
    var n := |b.reviews|;
    var t2 := t.(reviews := t.reviews + b.reviews, grades := t.grades + Flatten(b.grades));
    assert SaveBatch(f, t, b) == Retry(f, t2, b, n);
    assert b.reviews[..n] == b.reviews;
    RetryWritesSurvivors(f, t2, b, n);
    RetryGrades(f, t2, b, n);
    RetryObps(f, t2, b, n);
  }

  /** When a line threw after its review was buffered, the review buffer is
      one longer than the grade buffer.  On the retry path the grades of the
      next review are then paired with the earlier one: they are written right
      after the earlier review even though their own review's save fails, and
      when that save succeeds the retry throws instead. */
  lemma MisalignedRetry(f: Faults, t: Tables, r1: Review, r2: Review, gs2: seq<Grade>)
    requires f.reviewsSaveAllFails([r1, r2])
    requires !f.reviewSaveFails(r1)
    requires forall g :: g in gs2 ==> !f.gradeSaveFails(g)
    ensures var (t', threw) := SaveBatch(f, t, Batch([r1, r2], [gs2], []));
      && t'.grades == t.grades + gs2
      && (f.reviewSaveFails(r2) ==> !threw && t'.reviews == t.reviews + [r1])
      && (!f.reviewSaveFails(r2) ==> threw && t'.reviews == t.reviews + [r1, r2])
  {
    var b := Batch([r1, r2], [gs2], []);
    SavedAllSurvive(gs2, f.gradeSaveFails);
    var t1 := t.(reviews := t.reviews + [r1], grades := t.grades + gs2);
    assert ObpsOf([], r1) == [];
    assert Saved(ObpsOf([], r1), f.obpSaveFails) == [];
    assert t.obps + [] == t.obps;
    assert Retry(f, t, b, 1) == RetryOne(f, t, b, 0) == (t1, false);
    assert SaveBatch(f, t, b) == Retry(f, t, b, 2) == RetryOne(f, t1, b, 1);
  }

  /** When no save fails, isolated saves write everything. */
  lemma {:induction false} SavedAllSurvive<T>(xs: seq<T>, fails: T -> bool)
    requires forall x :: x in xs ==> !fails(x)
    ensures Saved(xs, fails) == xs
    decreases |xs|
  {
    if xs != [] {
      SavedAllSurvive(xs[..|xs| - 1], fails);
      assert xs == xs[..|xs| - 1] + [xs[|xs| - 1]];
    }
  }

  /** Once the retry loop has thrown, later iterations do not run. */
  lemma {:induction false} RetryStaysThrown(f: Faults, t: Tables, b: Batch, n: nat, m: nat)
    requires n <= m <= |b.reviews|
    requires Retry(f, t, b, n).1
    ensures Retry(f, t, b, m) == Retry(f, t, b, n)
    decreases m
  {
    if m > n {
      RetryStaysThrown(f, t, b, n, m - 1);
    }
  }

  /** Isolated saves of one more record. */
  lemma SavedSnoc<T>(xs: seq<T>, x: T, fails: T -> bool)
    ensures Saved(xs + [x], fails) == Saved(xs, fails) + if fails(x) then [] else [x]
  {
    assert (xs + [x])[..|xs|] == xs;
  }
}
