/**
 * The first-match rule the routers use to turn a URL segment back into a place name: the first
 * candidate whose inline key (fold, then lower-case) equals the segment's, or the segment itself
 * when none does.
 */
module PlaceMatch {
  import opened Wrappers
  import opened EqualsTool

  predicate Matches(candidate: string, key: string) {
    MatchKey(candidate) == MatchKey(key)
  }

  /** The inline key of every candidate, in order. */
  function Keys(candidates: seq<string>): (r: seq<string>)
    ensures |r| == |candidates|
    ensures forall j :: 0 <= j < |candidates| ==> r[j] == MatchKey(candidates[j])
  {
    if candidates == [] then [] else [MatchKey(candidates[0])] + Keys(candidates[1..])
  }

  /** The index of the first key equal to `k`. */
  function FirstEqual(k: string, keys: seq<string>): (r: Option<nat>)
    ensures r.Some? ==> r.value < |keys| && keys[r.value] == k
    ensures r.Some? ==> forall j :: 0 <= j < r.value ==> keys[j] != k
    ensures r.None? <==> forall j :: 0 <= j < |keys| ==> keys[j] != k
  {
    if keys == [] then None
    else if keys[0] == k then Some(0)
    else
      match FirstEqual(k, keys[1..])
      case None => None
      case Some(i) => Some(i + 1)
  }

  /** The index of the first candidate matching `key`, or `None` when no candidate does. */
  function FirstMatch(key: string, candidates: seq<string>): (r: Option<nat>)
    ensures r.Some? ==> r.value < |candidates| && Matches(candidates[r.value], key)
    ensures r.Some? ==> forall j :: 0 <= j < r.value ==> !Matches(candidates[j], key)
    ensures r.None? <==> forall j :: 0 <= j < |candidates| ==> !Matches(candidates[j], key)
  {
    var keys := Keys(candidates);
    FirstEqual(MatchKey(key), keys)
  }

  /** `found?.text ?? key`: the first matching candidate, falling back to the segment. */
  function Resolve(key: string, candidates: seq<string>): (r: string)
    ensures FirstMatch(key, candidates).Some? ==> r == candidates[FirstMatch(key, candidates).value]
    ensures FirstMatch(key, candidates).None? ==> r == key
  {
    match FirstMatch(key, candidates)
    case Some(i) => candidates[i]
    case None => key
  }

  /** Whatever it resolves to, the result matches the segment it came from. */
  lemma ResolveKeepsKey(key: string, candidates: seq<string>)
    ensures Matches(Resolve(key, candidates), key)
  {
  }

  /** A candidate that matches and has no matching candidate before it is the one chosen. */
  lemma ResolveFindsFirst(key: string, candidates: seq<string>, i: nat)
    requires i < |candidates| && Matches(candidates[i], key)
    requires forall j :: 0 <= j < i ==> !Matches(candidates[j], key)
    ensures Resolve(key, candidates) == candidates[i]
  {
    var r := FirstMatch(key, candidates);
    assert r.Some?;
  }

  /**
   * The index loop with `break`: computes the segment's key once, compares it with each candidate's
   * in order and stops at the first equal one.
   */
  method FindFirst(key: string, candidates: seq<string>) returns (current: Option<string>)
    ensures current.Some? <==> FirstMatch(key, candidates).Some?
    ensures current.Some? ==> current.value == candidates[FirstMatch(key, candidates).value]
  {
    current := None;
    var p1 := MatchKey(key);
    var index := 0;
    while index < |candidates|
      invariant 0 <= index <= |candidates|
      invariant forall j :: 0 <= j < index ==> !Matches(candidates[j], key)
    {
      var element := candidates[index];
      var p2 := MatchKey(element);
      if p1 == p2 {
        current := Some(element);
        ResolveFindsFirst(key, candidates, index);
        break;
      }
      index := index + 1;
    }
  }
}
