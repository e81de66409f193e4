/** Reference-data resolution: providers and hotels are found by id or
    created; reviewers are found by a first-match scan on
    (displayName, countryName) or created. */
module Resolver {
  import opened Wrappers
  import opened Json
  import opened Entities

  /** `upsertProvider`: the stored provider with this id, or a new one saved
      with this id and name. */
  function UpsertProvider(t: Tables, id: int, name: string): (Tables, Provider)
  {
    if id in t.providers then (t, t.providers[id])
    else
      var p := Provider(id, name);
      (t.(providers := t.providers[id := p]), p)
  }

  /** `upsertHotel`: the stored hotel with this id, or a new one saved with
      this id and (possibly null) name. */
  function UpsertHotel(t: Tables, id: int, name: Option<string>): (Tables, Hotel)
  {
    if id in t.hotels then (t, t.hotels[id])
    else
      var h := Hotel(id, name);
      (t.(hotels := t.hotels[id := h]), h)
  }

  /** A stored reviewer matches when its own display name and country are
      non-null and equal to the incoming ones; a null incoming value never
      matches. */
  predicate Matches(r: Reviewer, name: Option<string>, country: Option<string>)
  {
    r.displayName.Some? && name == r.displayName && r.countryName.Some? && country == r.countryName
  }

  /** The index of the first stored reviewer that matches, if any. */
  function FirstMatch(rs: seq<Reviewer>, name: Option<string>, country: Option<string>): (k: Option<nat>)
    ensures k.Some? ==> k.value < |rs| && Matches(rs[k.value], name, country)
    ensures k.Some? ==> forall j :: 0 <= j < k.value ==> !Matches(rs[j], name, country)
    ensures k.None? <==> forall j :: 0 <= j < |rs| ==> !Matches(rs[j], name, country)
    decreases |rs|
  {
    if rs == [] then None
    else
      var init := rs[..|rs| - 1];
      match FirstMatch(init, name, country)
      case Some(j) => Some(j)
      case None => if Matches(rs[|rs| - 1], name, country) then Some(|rs| - 1) else None
  }

  /** The reviewer built from a `reviewerInfo` object: every attribute is null
      when the member is absent or null. */
  function NewReviewer(info: Json, id: int): Reviewer
  {
    Reviewer(
      id,
      OptText(info, "displayMemberName"),
      OptText(info, "countryName"),
      OptText(info, "flagName"),
      OptText(info, "reviewGroupName"),
      OptText(info, "roomTypeName"),
      OptInt(info, "countryId"),
      OptInt(info, "lengthOfStay"),
      OptInt(info, "reviewGroupId"),
      OptInt(info, "roomTypeId"),
      OptInt(info, "reviewerReviewedCount"),
      OptBool(info, "isExpertReviewer"),
      OptBool(info, "isShowGlobalIcon"),
      OptBool(info, "isShowReviewedCount"))
  }

  /** `upsertReviewer`: the first stored reviewer matching the incoming
      display name and country, or a new reviewer appended with the next
      generated id. */
  function UpsertReviewer(t: Tables, info: Json): (Tables, Reviewer)
  {
    var name := OptText(info, "displayMemberName");
    var country := OptText(info, "countryName");
    match FirstMatch(t.reviewers, name, country)
    case Some(k) => (t, t.reviewers[k])
    case None =>
      var r := NewReviewer(info, |t.reviewers| + 1);
      (t.(reviewers := t.reviewers + [r]), r)
  }

  /** `t2` keeps everything `t1` holds: the same persisted rows, every stored
      provider and hotel unchanged, and the stored reviewers as a prefix. */
  predicate KeepsStore(t1: Tables, t2: Tables)
  {
    && t2.reviews == t1.reviews && t2.grades == t1.grades && t2.obps == t1.obps
    && (forall id :: id in t1.providers ==> id in t2.providers && t2.providers[id] == t1.providers[id])
    && (forall id :: id in t1.hotels ==> id in t2.hotels && t2.hotels[id] == t1.hotels[id])
    && |t1.reviewers| <= |t2.reviewers| && t2.reviewers[..|t1.reviewers|] == t1.reviewers
  }

  lemma KeepsStoreTransitive(t1: Tables, t2: Tables, t3: Tables)
    requires KeepsStore(t1, t2) && KeepsStore(t2, t3)
    ensures KeepsStore(t1, t3)
  {
    assert t3.reviewers[..|t1.reviewers|] == t3.reviewers[..|t2.reviewers|][..|t1.reviewers|];
  }

  lemma KeepsStoreGrows(t1: Tables, t2: Tables)
    requires KeepsStore(t1, t2)
    ensures Grows(t1, t2)
  {
  }

  /** No upsert loses or alters anything stored. */
  lemma UpsertProviderKeepsStore(t: Tables, id: int, name: string)
    ensures KeepsStore(t, UpsertProvider(t, id, name).0)
  {
  }

  lemma UpsertHotelKeepsStore(t: Tables, id: int, name: Option<string>)
    ensures KeepsStore(t, UpsertHotel(t, id, name).0)
  {
  }

  lemma UpsertReviewerKeepsStore(t: Tables, info: Json)
    ensures KeepsStore(t, UpsertReviewer(t, info).0)
  {
    var t' := UpsertReviewer(t, info).0;
    assert t'.reviewers[..|t.reviewers|] == t.reviewers;
  }

  /** An id already stored returns the stored provider, whatever the name, and
      changes nothing; otherwise exactly one provider with that id and name is
      added.  Either way the id is stored afterwards and only the provider
      table can change. */
  lemma UpsertProviderSpec(t: Tables, id: int, name: string)
    ensures var (t', p) := UpsertProvider(t, id, name);
      && id in t'.providers && t'.providers[id] == p
      && t' == t.(providers := t'.providers)
      && (id in t.providers ==> t' == t && p == t.providers[id])
      && (id !in t.providers ==>
            p == Provider(id, name) && t'.providers == t.providers[id := p] &&
            t'.providers.Keys == t.providers.Keys + {id} && |t'.providers| == |t.providers| + 1)
    ensures id in t.providers ==> forall other :: UpsertProvider(t, id, other) == UpsertProvider(t, id, name)
  {
  }

  /** A second upsert of the same id, with any name, returns the same provider
      and changes nothing further. */
  lemma UpsertProviderIdempotent(t: Tables, id: int, name: string, name2: string)
    ensures var (t1, p1) := UpsertProvider(t, id, name);
      UpsertProvider(t1, id, name2) == (t1, p1)
  {
  }

  /** The hotel counterpart of UpsertProviderSpec. */
  lemma UpsertHotelSpec(t: Tables, id: int, name: Option<string>)
    ensures var (t', h) := UpsertHotel(t, id, name);
      && id in t'.hotels && t'.hotels[id] == h
      && t' == t.(hotels := t'.hotels)
      && (id in t.hotels ==> t' == t && h == t.hotels[id])
      && (id !in t.hotels ==>
            h == Hotel(id, name) && t'.hotels == t.hotels[id := h] &&
            t'.hotels.Keys == t.hotels.Keys + {id} && |t'.hotels| == |t.hotels| + 1)
    ensures id in t.hotels ==> forall other :: UpsertHotel(t, id, other) == UpsertHotel(t, id, name)
  {
  }

  /** The reviewer upsert returns the first stored match and changes nothing,
      or appends exactly one reviewer carrying the incoming key and the next
      id.  Only the reviewer table can change. */
  lemma UpsertReviewerSpec(t: Tables, info: Json)
    ensures var (t', r) := UpsertReviewer(t, info);
      var name := OptText(info, "displayMemberName");
      var country := OptText(info, "countryName");
      && t' == t.(reviewers := t'.reviewers)
      && ((exists j :: 0 <= j < |t.reviewers| && Matches(t.reviewers[j], name, country)) ==>
            t' == t && r in t.reviewers && Matches(r, name, country) &&
            exists k :: 0 <= k < |t.reviewers| && r == t.reviewers[k] &&
              forall j :: 0 <= j < k ==> !Matches(t.reviewers[j], name, country))
      && ((forall j :: 0 <= j < |t.reviewers| ==> !Matches(t.reviewers[j], name, country)) ==>
            t'.reviewers == t.reviewers + [r] && r == NewReviewer(info, |t.reviewers| + 1) &&
            r.displayName == name && r.countryName == country)
  {
    var name := OptText(info, "displayMemberName");
    var country := OptText(info, "countryName");
    match FirstMatch(t.reviewers, name, country)
    case Some(k) =>
    case None =>
  }

  /** A null incoming display name or country never matches, so a new
      reviewer is always created. */
  lemma NullKeyCreatesReviewer(t: Tables, info: Json)
    requires !HasNonNull(info, "displayMemberName") || !HasNonNull(info, "countryName")
    ensures var (t', r) := UpsertReviewer(t, info);
      t'.reviewers == t.reviewers + [r] && r.id == |t.reviewers| + 1
  {
  }

  /** Two lines with the same non-null (displayName, countryName) collapse to
      one reviewer: the second upsert returns the first one's reviewer and
      adds nothing. */
  lemma SameKeyCollapses(t: Tables, a: Json, b: Json)
    requires HasNonNull(a, "displayMemberName") && HasNonNull(a, "countryName")
    requires OptText(a, "displayMemberName") == OptText(b, "displayMemberName")
    requires OptText(a, "countryName") == OptText(b, "countryName")
    ensures var (t1, r1) := UpsertReviewer(t, a);
      var (t2, r2) := UpsertReviewer(t1, b);
      t2 == t1 && r2 == r1 && |t1.reviewers| <= |t.reviewers| + 1
  {
    var name := OptText(a, "displayMemberName");
    var country := OptText(a, "countryName");
    var (t1, r1) := UpsertReviewer(t, a);
    assert UpsertReviewer(t1, b) == match FirstMatch(t1.reviewers, name, country)
      case Some(k) => (t1, t1.reviewers[k])
      case None => (t1.(reviewers := t1.reviewers + [NewReviewer(b, |t1.reviewers| + 1)]), NewReviewer(b, |t1.reviewers| + 1));
    match FirstMatch(t.reviewers, name, country)
    case Some(k) =>
      assert t1 == t && r1 == t.reviewers[k];
    case None =>
      assert t1.reviewers == t.reviewers + [r1];
      assert r1 == NewReviewer(a, |t.reviewers| + 1);
      assert Matches(t1.reviewers[|t.reviewers|], name, country);
      assert FirstMatch(t1.reviewers, name, country) == Some(|t.reviewers|);
  }

  /** The reviewer an upsert returns is stored and carries the incoming
      display name and country; at most that one reviewer is appended. */
  lemma UpsertReviewerCarriesKey(t: Tables, info: Json)
    ensures var (t', r) := UpsertReviewer(t, info);
      && r in t'.reviewers
      && r.displayName == OptText(info, "displayMemberName") && r.countryName == OptText(info, "countryName")
      && (t'.reviewers == t.reviewers || t'.reviewers == t.reviewers + [r])
  {
    match FirstMatch(t.reviewers, OptText(info, "displayMemberName"), OptText(info, "countryName"))
    case Some(k) =>
    case None =>
  }

  /** The same display name with two different countries, neither stored yet,
      gives two reviewers. */
  lemma DifferentCountrySeparates(t: Tables, a: Json, b: Json)
    requires HasNonNull(a, "displayMemberName") && HasNonNull(a, "countryName")
    requires OptText(a, "displayMemberName") == OptText(b, "displayMemberName")
    requires OptText(a, "countryName") != OptText(b, "countryName")
    requires forall j :: 0 <= j < |t.reviewers| ==>
      !Matches(t.reviewers[j], OptText(b, "displayMemberName"), OptText(b, "countryName"))
    ensures var (t1, r1) := UpsertReviewer(t, a);
      var (t2, r2) := UpsertReviewer(t1, b);
      t2.reviewers == t1.reviewers + [r2] && r1 != r2 && r1 in t2.reviewers
  {
    var name := OptText(b, "displayMemberName");
    var country := OptText(b, "countryName");
    UpsertReviewerCarriesKey(t, a);
    var (t1, r1) := UpsertReviewer(t, a);
    assert !Matches(r1, name, country);
    forall j | 0 <= j < |t1.reviewers| ensures !Matches(t1.reviewers[j], name, country) {
      if j < |t.reviewers| {
        assert t1.reviewers[j] == t.reviewers[j];
      } else {
        assert t1.reviewers[j] == r1;
      }
    }
    UpsertReviewerCarriesKey(t1, b);
    assert FirstMatch(t1.reviewers, name, country).None?;
  }
}
