/** The persistent entities the importer writes, and the tables that hold them. */
module Entities {
  import opened Wrappers

  /** What `LocalDateTime.parse` yields; the parser itself is an oracle. */
  datatype LocalDateTime = LocalDateTime(year: int, month: int, day: int, hour: int, minute: int, second: int, nano: int)

  /** A rating provider; its id is assigned by the source system. */
  datatype Provider = Provider(id: int, name: string)

  /** A property (hotel); its id is assigned by the source system, its name may be null. */
  datatype Hotel = Hotel(id: int, name: Option<string>)

  /** A reviewer; its id is generated by the store when it is first saved. */
  datatype Reviewer = Reviewer(
    id: int,
    displayName: Option<string>,
    countryName: Option<string>,
    flagName: Option<string>,
    reviewGroupName: Option<string>,
    roomTypeName: Option<string>,
    countryId: Option<int>,
    lengthOfStay: Option<int>,
    reviewGroupId: Option<int>,
    roomTypeId: Option<int>,
    reviewedCount: Option<int>,
    isExpertReviewer: Option<bool>,
    isShowGlobalIcon: Option<bool>,
    isShowReviewedCount: Option<bool>)

  /** A review.  `id` is the source system's review id.  Equality is by
      value over every attribute, as the entity's generated `equals` is: the
      retry path pairs overall-by-provider rows with their review by it. */
  datatype Review = Review(
    id: int,
    hotel: Hotel,
    provider: Provider,
    reviewer: Reviewer,
    rating: Option<real>,
    checkInMonthYear: Option<string>,
    encryptedReviewData: Option<string>,
    formattedRating: Option<string>,
    formattedReviewDate: Option<string>,
    ratingText: Option<string>,
    responderName: Option<string>,
    responseDateText: Option<string>,
    responseTranslateSource: Option<string>,
    reviewComments: Option<string>,
    reviewNegatives: Option<string>,
    reviewPositives: Option<string>,
    reviewProviderLogo: Option<string>,
    reviewProviderText: Option<string>,
    reviewTitle: Option<string>,
    translateSource: Option<string>,
    translateTarget: Option<string>,
    reviewDate: Option<LocalDateTime>,
    originalTitle: Option<string>,
    originalComment: Option<string>,
    formattedResponseDate: Option<string>,
    isShowReviewResponse: Option<bool>)

  /** One category score of a review. */
  datatype Grade = Grade(review: Review, category: string, score: real)

  /** How another provider rates the same review. */
  datatype Obp = Obp(review: Review, provider: Provider, overallScore: real, reviewCount: int)

  /** The six repositories.  Providers and hotels are looked up by id;
      reviewers are scanned in insertion order.  Reviews, grades and
      overall-by-provider rows are the sequence of successful saves, in the
      order they were made. */
  datatype Tables = Tables(
    providers: map<int, Provider>,
    hotels: map<int, Hotel>,
    reviewers: seq<Reviewer>,
    reviews: seq<Review>,
    grades: seq<Grade>,
    obps: seq<Obp>)
  {
    /** `reviewRepository.existsById(id)`. */
    predicate ReviewExists(id: int)
    {
      exists k :: 0 <= k < |reviews| && reviews[k].id == id
    }
  }

  const NoTables := Tables(map[], map[], [], [], [], [])

  /** `t'` keeps everything `t` stores: every stored provider and hotel
      stays under its id, the stored reviewers stay a prefix of the
      reviewer table, and each write log only has rows appended. */
  predicate Grows(t: Tables, t': Tables)
  {
    && (forall id :: id in t.providers ==> id in t'.providers && t'.providers[id] == t.providers[id])
    && (forall id :: id in t.hotels ==> id in t'.hotels && t'.hotels[id] == t.hotels[id])
    && |t.reviewers| <= |t'.reviewers| && t'.reviewers[..|t.reviewers|] == t.reviewers
    && |t.reviews| <= |t'.reviews| && t'.reviews[..|t.reviews|] == t.reviews
    && |t.grades| <= |t'.grades| && t'.grades[..|t.grades|] == t.grades
    && |t.obps| <= |t'.obps| && t'.obps[..|t.obps|] == t.obps
  }

  lemma GrowsTransitive(t: Tables, t1: Tables, t2: Tables)
    requires Grows(t, t1) && Grows(t1, t2)
    ensures Grows(t, t2)
  {
    assert t2.reviewers[..|t.reviewers|] == t2.reviewers[..|t1.reviewers|][..|t.reviewers|];
    assert t2.reviews[..|t.reviews|] == t2.reviews[..|t1.reviews|][..|t.reviews|];
    assert t2.grades[..|t.grades|] == t2.grades[..|t1.grades|][..|t.grades|];
    assert t2.obps[..|t.obps|] == t2.obps[..|t1.obps|][..|t.obps|];
  }
}
