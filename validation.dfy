/** The required-field gate applied to every parsed line before any lookup
    or write. */
module Validation {
  import opened Wrappers
  import opened Json

  /** The two configured lists: fields required at top level, and fields
      required inside the `comment` object. */
  datatype RequiredFields = RequiredFields(topLevel: seq<string>, comment: seq<string>)

  /** What the gate decides: the line goes on, it is skipped with the text of
      its missing fields, or reading `comment` threw because it is absent. */
  datatype Verdict = Passed | Missing(report: string) | Threw

  predicate AllNonNull(node: Json, fields: seq<string>)
  {
    forall k :: 0 <= k < |fields| ==> HasNonNull(node, fields[k])
  }

  /** The text the string builder accumulates over `fields`: every field that
      is absent or null, with the prefix, each followed by ", ". */
  function MissingReport(node: Json, fields: seq<string>, prefix: string): string
    decreases |fields|
  {
    if fields == [] then ""
    else
      var f := fields[|fields| - 1];
      MissingReport(node, fields[..|fields| - 1], prefix) + (if HasNonNull(node, f) then "" else prefix + f + ", ")
  }

  /** The gate of the importer.  Top-level fields are checked first; if any is
      missing the line is rejected without looking at `comment`.  Otherwise
      the comment fields are checked on `root.get("comment")`, which throws
      when there is at least one comment field and `comment` is absent.  A
      line passes only with every top-level field non-null, a rejection
      always names at least one field, and only an absent `comment` throws. */
  function Validate(required: RequiredFields, root: Json): (v: Verdict)
    ensures v.Passed? ==> AllNonNull(root, required.topLevel)
    ensures v.Missing? ==> v.report != ""
    ensures v.Threw? ==> required.comment != [] && !Has(root, "comment")
  {
    var top := MissingReport(root, required.topLevel, "");
    MissingReportEmpty(root, required.topLevel, "");
    if top != "" then Missing(top)
    else if required.comment == [] then Passed
    else match Get(root, "comment")
      case None => Threw
      case Some(comment) =>
        var inner := MissingReport(comment, required.comment, "comment.");
        if inner != "" then Missing(inner) else Passed
  }

  /** The report is empty exactly when no field is missing. */
  lemma {:induction false} MissingReportEmpty(node: Json, fields: seq<string>, prefix: string)
    ensures MissingReport(node, fields, prefix) == "" <==> AllNonNull(node, fields)
    decreases |fields|
  {
    if fields != [] {
      var init := fields[..|fields| - 1];
      MissingReportEmpty(node, init, prefix);
      var f := fields[|fields| - 1];
      var tail := if HasNonNull(node, f) then "" else prefix + f + ", ";
      assert |tail| == 0 <==> HasNonNull(node, f);
      assert MissingReport(node, fields, prefix) == MissingReport(node, init, prefix) + tail;
      if AllNonNull(node, fields) {
        assert AllNonNull(node, init) by {
          forall k | 0 <= k < |init| ensures HasNonNull(node, init[k]) {
            assert init[k] == fields[k];
          }
        }
      }
      if AllNonNull(node, init) && HasNonNull(node, f) {
        forall k | 0 <= k < |fields| ensures HasNonNull(node, fields[k]) {
          if k < |init| { assert fields[k] == init[k]; }
        }
      }
    }
  }

  /** One more field extends the report by that field's entry, written as
      the builder appends it. */
  lemma MissingReportStep(node: Json, fields: seq<string>, i: nat, prefix: string)
    requires i < |fields|
    ensures var r := MissingReport(node, fields[..i], prefix);
      MissingReport(node, fields[..i + 1], prefix) ==
        if HasNonNull(node, fields[i]) then r else r + prefix + fields[i] + ", "
  {
    assert fields[..i + 1][..i] == fields[..i];
    var r := MissingReport(node, fields[..i], prefix);
    assert r + (prefix + fields[i] + ", ") == r + prefix + fields[i] + ", ";
  }

  /** The gate passes a line exactly when every top-level field is present and
      non-null and, if comment fields are configured, `comment` exists and
      every one of them is present and non-null in it.  A missing top-level
      field rejects the line with the top-level report alone; the gate throws
      only when the top level is complete, comment fields are configured and
      `comment` is absent. */
  lemma ValidateSpec(required: RequiredFields, root: Json)
    ensures Validate(required, root) == Passed <==>
      AllNonNull(root, required.topLevel) &&
      (required.comment == [] || (Has(root, "comment") && AllNonNull(Get(root, "comment").value, required.comment)))
    ensures !AllNonNull(root, required.topLevel) ==>
      Validate(required, root) == Missing(MissingReport(root, required.topLevel, ""))
    ensures Validate(required, root) == Threw <==>
      AllNonNull(root, required.topLevel) && required.comment != [] && !Has(root, "comment")
  {
    MissingReportEmpty(root, required.topLevel, "");
    if Has(root, "comment") {
      MissingReportEmpty(Get(root, "comment").value, required.comment, "comment.");
    }
  }
}
