/** The file-name and object-key transformations of the folder and bucket
    workers, and their listing filters. */
module Naming {
  const JlSuffix := ".jl"
  const ProcessedSuffix := "_processed.jl"
  const ClaimSuffix := ".processing"

  predicate EndsWith(s: string, suffix: string)
  {
    |suffix| <= |s| && s[|s| - |suffix|..] == suffix
  }

  /** `replaceFirst("\\.jl$", repl)`: a trailing ".jl" replaced by `repl`;
      a name without it is returned unchanged. */
  function ReplaceJl(s: string, repl: string): string
  {
    if EndsWith(s, JlSuffix) then s[..|s| - |JlSuffix|] + repl else s
  }

  /** The name a file or object gets once imported: a ".jl" name keeps its
      stem and ends in "_processed.jl" instead; any other name is kept. */
  function ProcessedName(p: string): (q: string)
    ensures EndsWith(p, JlSuffix) ==>
      EndsWith(q, ProcessedSuffix) && |q| == |p| + 10 && q[..|p| - 3] == p[..|p| - 3]
    ensures !EndsWith(p, JlSuffix) ==> q == p
  {
    ReplaceJl(p, ProcessedSuffix)
  }

  /** The name a local file is renamed to while a worker imports it. */
  function LocalClaimName(p: string): string
  {
    ProcessedName(p) + ClaimSuffix
  }

  /** The key an object is moved to while a worker imports it. */
  function BucketClaimKey(p: string): string
  {
    ReplaceJl(p, ClaimSuffix)
  }

  /** The folder listing filter.  A name ending in ".processing" never
      passes, since it does not end in ".jl". */
  predicate ListedLocally(name: string)
    ensures EndsWith(name, ClaimSuffix) ==> !ListedLocally(name)
  {
    SuffixesClash(name);
    EndsWith(name, JlSuffix) && !EndsWith(name, ProcessedSuffix)
  }

  /** The bucket listing filter.  Its extra ".processing" test never
      decides anything: it accepts exactly the names the folder filter
      accepts. */
  predicate ListedInBucket(key: string)
    ensures ListedInBucket(key) == ListedLocally(key)
  {
    SuffixesClash(key);
    EndsWith(key, JlSuffix) && !EndsWith(key, ProcessedSuffix) && !EndsWith(key, ClaimSuffix)
  }

  /** No name ends both in ".jl" and in ".processing": their last
      characters differ. */
  lemma SuffixesClash(s: string)
    ensures EndsWith(s, JlSuffix) ==> !EndsWith(s, ClaimSuffix)
  {
    if EndsWith(s, JlSuffix) {
      assert s[|s| - 1] == s[|s| - |JlSuffix|..][|JlSuffix| - 1];
      if |ClaimSuffix| <= |s| {
        assert s[|s| - |ClaimSuffix|..][|ClaimSuffix| - 1] == s[|s| - 1];
      }
    }
  }

  /** The name a processed name was derived from. */
  function OriginalName(q: string): string
  {
    if EndsWith(q, ProcessedSuffix) then q[..|q| - |ProcessedSuffix|] + JlSuffix else q
  }

  /** `base + suffix` ends with `suffix` and starts with `base`. */
  lemma EndsWithAppended(base: string, suffix: string)
    ensures EndsWith(base + suffix, suffix)
    ensures (base + suffix)[..|base|] == base
  {
  }

  /** For a name ending in ".jl", each derived name is the stem followed by
      its own suffix. */
  lemma DerivedShapes(p: string)
    requires EndsWith(p, JlSuffix)
    ensures var stem := p[..|p| - 3];
      && p == stem + JlSuffix
      && ProcessedName(p) == stem + ProcessedSuffix
      && LocalClaimName(p) == stem + ProcessedSuffix + ClaimSuffix
      && BucketClaimKey(p) == stem + ClaimSuffix
  {
  }

  /** A processed name ends in "_processed.jl", which both filters reject. */
  lemma ProcessedNameNotListed(p: string)
    requires EndsWith(p, JlSuffix)
    ensures !ListedLocally(ProcessedName(p)) && !ListedInBucket(ProcessedName(p))
  {
    DerivedShapes(p);
    EndsWithAppended(p[..|p| - 3], ProcessedSuffix);
  }

  /** A claim name or claim key ends in ".processing", so neither filter
      accepts it. */
  lemma ClaimNamesNotListed(p: string)
    requires EndsWith(p, JlSuffix)
    ensures !ListedLocally(LocalClaimName(p)) && !ListedInBucket(BucketClaimKey(p))
    ensures !ListedLocally(BucketClaimKey(p))
  {
    DerivedShapes(p);
    EndsWithAppended(ProcessedName(p), ClaimSuffix);
    EndsWithAppended(p[..|p| - 3], ClaimSuffix);
  }

  /** No derived name passes its listing filter, so a claimed or processed
      file or object is never picked up again. */
  lemma DerivedNamesNotListed(p: string)
    requires EndsWith(p, JlSuffix)
    ensures !ListedLocally(ProcessedName(p)) && !ListedLocally(LocalClaimName(p))
    ensures !ListedInBucket(ProcessedName(p)) && !ListedInBucket(BucketClaimKey(p))
    ensures !ListedLocally(BucketClaimKey(p))
  {
    ProcessedNameNotListed(p);
    ClaimNamesNotListed(p);
  }

  /** A processed name gives back the name it came from. */
  lemma ProcessedNameRoundTrip(p: string)
    requires EndsWith(p, JlSuffix)
    ensures OriginalName(ProcessedName(p)) == p
  {
    var stem := p[..|p| - 3];
    DerivedShapes(p);
    EndsWithAppended(stem, ProcessedSuffix);
    assert ProcessedName(p)[..|ProcessedName(p)| - |ProcessedSuffix|] == stem;
  }

  /** Distinct listed names get distinct processed names, local claim names
      and bucket claim keys. */
  lemma DerivedNamesInjective(p: string, q: string)
    requires EndsWith(p, JlSuffix) && EndsWith(q, JlSuffix)
    requires p != q
    ensures ProcessedName(p) != ProcessedName(q)
    ensures LocalClaimName(p) != LocalClaimName(q)
    ensures BucketClaimKey(p) != BucketClaimKey(q)
  {
    ProcessedNameRoundTrip(p);
    ProcessedNameRoundTrip(q);
    DerivedShapes(p);
    DerivedShapes(q);
    var sp, sq := p[..|p| - 3], q[..|q| - 3];
    assert sp != sq;
    EndsWithAppended(ProcessedName(p), ClaimSuffix);
    EndsWithAppended(ProcessedName(q), ClaimSuffix);
    EndsWithAppended(sp, ClaimSuffix);
    EndsWithAppended(sq, ClaimSuffix);
  }

  /** For a listed name, each derived name differs from it and from one
      another, so a rename is never a no-op and the claim and the processed
      name never collide. */
  lemma DerivedNamesDistinct(p: string)
    requires EndsWith(p, JlSuffix)
    ensures ProcessedName(p) != p && LocalClaimName(p) != p && BucketClaimKey(p) != p
    ensures LocalClaimName(p) != ProcessedName(p) && BucketClaimKey(p) != ProcessedName(p)
  {
    DerivedNamesNotListed(p);
    DerivedShapes(p);
    assert |LocalClaimName(p)| == |ProcessedName(p)| + |ClaimSuffix|;
    var stem := p[..|p| - 3];
    EndsWithAppended(stem, ProcessedSuffix);
    EndsWithAppended(stem, ClaimSuffix);
    assert |ProcessedName(p)| == |p| + 10 && |BucketClaimKey(p)| == |p| + 8;
  }

  /** A claim name never equals any processed name: the one ends in
      ".processing", the other in ".jl". */
  lemma ClaimIsNeverProcessed(p: string, q: string)
    requires EndsWith(p, JlSuffix) && EndsWith(q, JlSuffix)
    ensures LocalClaimName(p) != ProcessedName(q) && BucketClaimKey(p) != ProcessedName(q)
  {
    DerivedShapes(p);
    DerivedShapes(q);
    var sp, sq := p[..|p| - 3], q[..|q| - 3];
    EndsWithAppended(sp + ProcessedSuffix, ClaimSuffix);
    EndsWithAppended(sp, ClaimSuffix);
    EndsWithAppended(sq, ProcessedSuffix);
    var c, b, r := LocalClaimName(p), BucketClaimKey(p), ProcessedName(q);
    assert c[|c| - 1] == 'g' && b[|b| - 1] == 'g' && r[|r| - 1] == 'l';
  }
}
