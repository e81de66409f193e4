/** Building a review and its grade rows from the `comment` object and an
    `overallByProviders` entry. */
module Mapping {
  import opened Wrappers
  import opened Json
  import opened Entities

  /** `mapReview`: a field-by-field copy of `comment`; every optional
      attribute is null when its member is absent or null.  The review date
      goes through the date parser, which yields null for a text it cannot
      parse. */
  function MapReview(comment: Json, reviewId: int, hotel: Hotel, provider: Provider, reviewer: Reviewer,
                     parseDate: string -> Option<LocalDateTime>): Review
  {
    Review(
      reviewId, hotel, provider, reviewer,
      OptDouble(comment, "rating"),
      OptText(comment, "checkInDateMonthAndYear"),
      OptText(comment, "encryptedReviewData"),
      OptText(comment, "formattedRating"),
      OptText(comment, "formattedReviewDate"),
      OptText(comment, "ratingText"),
      OptText(comment, "responderName"),
      OptText(comment, "responseDateText"),
      OptText(comment, "responseTranslateSource"),
      OptText(comment, "reviewComments"),
      OptText(comment, "reviewNegatives"),
      OptText(comment, "reviewPositives"),
      OptText(comment, "reviewProviderLogo"),
      OptText(comment, "reviewProviderText"),
      OptText(comment, "reviewTitle"),
      OptText(comment, "translateSource"),
      OptText(comment, "translateTarget"),
      if HasNonNull(comment, "reviewDate") then parseDate(AsText(Get(comment, "reviewDate").value)) else None,
      OptText(comment, "originalTitle"),
      OptText(comment, "originalComment"),
      OptText(comment, "formattedResponseDate"),
      OptBool(comment, "isShowReviewResponse"))
  }

  /** The grade row for one category of a `grades` object. */
  function GradeOf(review: Review, grades: Json, category: string): Grade
    requires Has(grades, category)
  {
    Grade(review, category, AsDouble(Get(grades, category).value))
  }

  /** The grade rows for the given categories, in order. */
  function GradesFor(review: Review, grades: Json, categories: seq<string>): (gs: seq<Grade>)
    requires forall k :: 0 <= k < |categories| ==> Has(grades, categories[k])
    ensures |gs| == |categories|
    ensures forall k :: 0 <= k < |gs| ==>
      gs[k].review == review && gs[k].category == categories[k] &&
      Has(grades, categories[k]) && gs[k].score == AsDouble(Get(grades, categories[k]).value)
    decreases |categories|
  {
    if categories == [] then []
    else
      var init := categories[..|categories| - 1];
      GradesFor(review, grades, init) + [GradeOf(review, grades, categories[|categories| - 1])]
  }

  /** One grade row per member of a `grades` object, in document order, each
      referring to the review; none for a node that is not an object. */
  function GradesOf(review: Review, grades: Json): seq<Grade>
  {
    GradesFor(review, grades, FieldNames(grades))
  }

  /** The test of `mapReview`, for every comment with the test's members: a
      comment whose rating is the integer 5 and whose comments are "Good"
      maps to a review with the given id and references, rating 5.0 and
      comments "Good". */
  lemma MapReviewExample(comment: Json, hotel: Hotel, provider: Provider, reviewer: Reviewer,
                         parseDate: string -> Option<LocalDateTime>)
    requires Get(comment, "rating") == Some(JInt(5))
    requires Get(comment, "reviewComments") == Some(JStr("Good"))
    ensures var r := MapReview(comment, 1, hotel, provider, reviewer, parseDate);
      && r.id == 1 && r.hotel == hotel && r.provider == provider && r.reviewer == reviewer
      && r.rating == Some(5.0) && r.reviewComments == Some("Good")
  {
  }

  /** An attribute copied with the `hasNonNull(k) ? get(k).asText() : null`
      idiom: null exactly when the member is absent or JSON null, and
      otherwise the member's text. */
  ghost predicate CopiedText(comment: Json, key: string, v: Option<string>)
  {
    (v.None? <==> !HasNonNull(comment, key)) && (v.Some? ==> v.value == AsText(Get(comment, key).value))
  }

  /** `mapReview` for every comment: the id and the three references are the
      arguments; each optional attribute is null exactly when its member is
      absent or JSON null and otherwise holds the member's coerced value; the
      date is null also when the parser rejects the text. */
  lemma MapReviewSpec(comment: Json, reviewId: int, hotel: Hotel, provider: Provider, reviewer: Reviewer,
                      parseDate: string -> Option<LocalDateTime>)
    ensures var r := MapReview(comment, reviewId, hotel, provider, reviewer, parseDate);
      && r.id == reviewId && r.hotel == hotel && r.provider == provider && r.reviewer == reviewer
      && (r.rating.None? <==> !HasNonNull(comment, "rating"))
      && (r.rating.Some? ==> r.rating.value == AsDouble(Get(comment, "rating").value))
      && CopiedText(comment, "checkInDateMonthAndYear", r.checkInMonthYear)
      && CopiedText(comment, "encryptedReviewData", r.encryptedReviewData)
      && CopiedText(comment, "formattedRating", r.formattedRating)
      && CopiedText(comment, "formattedReviewDate", r.formattedReviewDate)
      && CopiedText(comment, "ratingText", r.ratingText)
      && CopiedText(comment, "responderName", r.responderName)
      && CopiedText(comment, "responseDateText", r.responseDateText)
      && CopiedText(comment, "responseTranslateSource", r.responseTranslateSource)
      && CopiedText(comment, "reviewComments", r.reviewComments)
      && CopiedText(comment, "reviewNegatives", r.reviewNegatives)
      && CopiedText(comment, "reviewPositives", r.reviewPositives)
      && CopiedText(comment, "reviewProviderLogo", r.reviewProviderLogo)
      && CopiedText(comment, "reviewProviderText", r.reviewProviderText)
      && CopiedText(comment, "reviewTitle", r.reviewTitle)
      && CopiedText(comment, "translateSource", r.translateSource)
      && CopiedText(comment, "translateTarget", r.translateTarget)
      && CopiedText(comment, "originalTitle", r.originalTitle)
      && CopiedText(comment, "originalComment", r.originalComment)
      && CopiedText(comment, "formattedResponseDate", r.formattedResponseDate)
      && (r.reviewDate.Some? <==>
            HasNonNull(comment, "reviewDate") && parseDate(AsText(Get(comment, "reviewDate").value)).Some?)
      && (HasNonNull(comment, "reviewDate") ==>
            r.reviewDate == parseDate(AsText(Get(comment, "reviewDate").value)))
      && (r.isShowReviewResponse.None? <==> !HasNonNull(comment, "isShowReviewResponse"))
      && (r.isShowReviewResponse.Some? ==>
            r.isShowReviewResponse.value == AsBoolean(Get(comment, "isShowReviewResponse").value))
  {
  }

  /** A member that is present with a JSON null is copied as an absent one:
      the comment maps to exactly the review of the same comment without
      that member, whatever the member's name. */
  lemma NullMemberIsAbsent(members: seq<(string, Json)>, key: string, reviewId: int, hotel: Hotel,
                           provider: Provider, reviewer: Reviewer, parseDate: string -> Option<LocalDateTime>)
    requires Lookup(members, key) == Some(JNull)
    ensures MapReview(JObj(members), reviewId, hotel, provider, reviewer, parseDate) ==
      MapReview(JObj(Without(members, key)), reviewId, hotel, provider, reviewer, parseDate)
  {
    DropNullMember(members, key, "rating");
    DropNullMember(members, key, "checkInDateMonthAndYear");
    DropNullMember(members, key, "encryptedReviewData");
    DropNullMember(members, key, "formattedRating");
    DropNullMember(members, key, "formattedReviewDate");
    DropNullMember(members, key, "ratingText");
    DropNullMember(members, key, "responderName");
    DropNullMember(members, key, "responseDateText");
    DropNullMember(members, key, "responseTranslateSource");
    DropNullMember(members, key, "reviewComments");
    DropNullMember(members, key, "reviewNegatives");
    DropNullMember(members, key, "reviewPositives");
    DropNullMember(members, key, "reviewProviderLogo");
    DropNullMember(members, key, "reviewProviderText");
    DropNullMember(members, key, "reviewTitle");
    DropNullMember(members, key, "translateSource");
    DropNullMember(members, key, "translateTarget");
    DropNullMember(members, key, "reviewDate");
    DropNullMember(members, key, "originalTitle");
    DropNullMember(members, key, "originalComment");
    DropNullMember(members, key, "formattedResponseDate");
    DropNullMember(members, key, "isShowReviewResponse");
  }

  /** Dropping a member bound to JSON null changes no optional read of the
      name `k`, whether `k` is that member's name or another. */
  lemma DropNullMember(members: seq<(string, Json)>, key: string, k: string)
    requires Lookup(members, key) == Some(JNull)
    ensures var c1, c2 := JObj(members), JObj(Without(members, key));
      && HasNonNull(c1, k) == HasNonNull(c2, k)
      && (HasNonNull(c1, k) ==> Get(c1, k) == Get(c2, k))
  {
    LookupWithout(members, key, k);
  }
}
