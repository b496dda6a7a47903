/** Helpers of the command-line layer (command/cli/functions.go): reading a
    resource ID from a string and matching a resource's tags. */
module CliFunctions {
  import opened Basics
  import opened Decimal

  datatype IDParse = IDParse(id: int64, ok: bool)

  /** `toSakuraID`: the base-10 int64 the string denotes, or `(0, false)`. */
  function ToSakuraID(s: string): (r: IDParse)
    ensures r.ok <==> ParseInt64(s).Some?
    ensures r.ok ==> r.id == ParseInt64(s).value
    ensures !r.ok ==> r == IDParse(0, false)
  {
    match ParseInt64(s)
    case Some(n) => IDParse(n, true)
    case None => IDParse(0, false)
  }

  /** Every int64 reads back from its decimal rendering. */
  lemma ToSakuraIDRoundTrip(n: int64)
    ensures ToSakuraID(IntToString(n)) == IDParse(n, true)
  {
    ParseInt64RoundTrip(n);
  }

  /** The empty string, a non-digit after the optional sign, and an
      out-of-range number are all rejected. */
  lemma ToSakuraIDRejects(s: string, i: nat, n: int)
    ensures ToSakuraID("") == IDParse(0, false)
    ensures 0 < i < |s| && !IsDigit(s[i]) ==> ToSakuraID(s) == IDParse(0, false)
    ensures n < MinInt64 || MaxInt64 < n ==> ToSakuraID(IntToString(n)) == IDParse(0, false)
  {
    if 0 < i < |s| && !IsDigit(s[i]) {
      ParseInt64RejectsNonDigit(s, i);
    }
    if n < MinInt64 || MaxInt64 < n {
      ParseInt64RejectsOverflow(n);
    }
  }

  /** A search target: a resource that has tags (its `HasTag` matches a tag
      exactly), or a value without tags. */
  datatype Target = TagHolder(tags: seq<string>) | NotTagHolder

  /** The scan of `hasTags` over the requested tags, stopping at the first
      one that is not held. */
  function AllHeld(held: seq<string>, tags: seq<string>): (r: bool)
    ensures r <==> forall i :: 0 <= i < |tags| ==> tags[i] in held
    decreases |tags|
  {
    if |tags| == 0 then true
    else if tags[0] !in held then false
    else
      assert forall i :: 1 <= i < |tags| ==> tags[i] == tags[1..][i - 1];
      AllHeld(held, tags[1..])
  }

  /** `hasTags`: a value without tags never matches, not even an empty
      request; a tagged resource matches when it holds every requested tag. */
  function HasTags(target: Target, tags: seq<string>): (r: bool)
    ensures target.NotTagHolder? ==> !r
    ensures target.TagHolder? ==> (r <==> forall t :: t in tags ==> t in target.tags)
  {
    match target
    case NotTagHolder => false
    case TagHolder(held) => AllHeld(held, tags)
  }

  /** Requesting one tag more can only narrow the match. */
  lemma HasTagsNarrows(target: Target, tags: seq<string>, t: string)
    ensures HasTags(target, tags + [t]) ==> HasTags(target, tags)
    ensures HasTags(target, tags + [t]) <==> HasTags(target, tags) && target.TagHolder? && t in target.tags
  {
    assert forall x :: x in tags + [t] <==> x in tags || x == t;
  }

  /** The order of the requested tags does not matter. */
  lemma HasTagsOrderFree(target: Target, tags: seq<string>, other: seq<string>)
    requires multiset(tags) == multiset(other)
    ensures HasTags(target, tags) == HasTags(target, other)
  {
    assert forall x :: x in tags <==> x in multiset(tags);
    assert forall x :: x in other <==> x in multiset(other);
  }
}
