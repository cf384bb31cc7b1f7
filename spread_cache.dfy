/**
 * The routers keep fetched lists in cookie maps and update them by spreading: `{ ...m, [k]: v }` is a
 * copy of `m` with one key set. A read-through looks the key up and, on a miss, fetches the list and
 * writes the spread map back.
 */
module SpreadCache {
  import opened Wrappers

  /** `{ ...m, [k]: v }`; spreading `undefined` copies nothing. */
  function Spread<V>(m: Option<map<string, V>>, k: string, v: V): (r: map<string, V>)
    ensures r.Keys == (if m.Some? then m.value.Keys else {}) + {k}
    ensures r[k] == v
    ensures m.Some? ==> forall j :: j in m.value && j != k ==> r[j] == m.value[j]
  {
    m.GetOr(map[])[k := v]
  }

  /** `m && m[k]`: a cookie map that is present and holds the key; a stored list is truthy even when empty. */
  predicate Hit<V>(m: Option<map<string, V>>, k: string) {
    m.Some? && k in m.value
  }

  /**
   * What one awaited service call gives: it threw, or it answered with a list (`None` is `undefined`;
   * the older service wraps it as `.result`).
   */
  datatype Reply<V> = Threw | Answered(result: Option<seq<V>>)

  /**
   * What a read-through leaves behind: the list it uses (`None` is `undefined`), whether it called the
   * service, whether that call threw, and the cookie map it wrote, if any.
   */
  datatype Outcome<V> = Outcome(value: Option<seq<V>>, fetched: bool, threw: bool, written: Option<map<string, seq<V>>>)

  /**
   * `try { if (m && m[k]) v = m[k]; else { v = reply ?? []; if (v) m' = { ...m, [k]: v }; } } catch {}`
   * with `v` declared as `[]` before the `try`. `reply` is what the service gives for `k`; `orEmpty`
   * says whether the code applies `?? []`. A call that throws leaves `v` at `[]` and writes nothing;
   * `threw` tells the caller that the rest of its `try` block is skipped.
   */
  function ReadThrough<V>(cached: Option<map<string, seq<V>>>, key: string, reply: Reply<V>, orEmpty: bool)
    : (o: Outcome<V>)
    ensures o.fetched <==> !Hit(cached, key)
    ensures o.threw <==> !Hit(cached, key) && reply.Threw?
    ensures !o.fetched ==> o.value == Some(cached.value[key]) && o.written.None?
    ensures o.threw ==> o.value == Some([]) && o.written.None?
    ensures o.fetched && !o.threw ==> o.value == (if orEmpty then Some(reply.result.GetOr([])) else reply.result)
    ensures o.fetched && !o.threw ==> (o.written.Some? <==> o.value.Some?)
    ensures o.written.Some? ==> o.written.value == Spread(cached, key, o.value.value)
  {
    if Hit(cached, key) then Outcome(Some(cached.value[key]), false, false, None)
    else
      match reply
      case Threw => Outcome(Some([]), true, true, None)
      case Answered(result) =>
        var value := if orEmpty then Some(result.GetOr([])) else result;
        match value
        case Some(v) => Outcome(value, true, false, Some(Spread(cached, key, v)))
        case None => Outcome(None, true, false, None)
  }

  /** With `?? []` a miss whose call answers always writes the cookie, and the list used is never `undefined`. */
  lemma DefaultedMissWrites<V>(cached: Option<map<string, seq<V>>>, key: string, reply: Option<seq<V>>)
    requires !Hit(cached, key)
    ensures ReadThrough(cached, key, Answered(reply), true).written.Some?
    ensures ReadThrough(cached, key, Answered(reply), true).value == Some(reply.GetOr([]))
  {
  }

  /**
   * Once a miss has written the cookie, the next request for the same key is a hit on the same list and
   * calls the service no more, whatever it would answer.
   */
  lemma ReadThroughSettles<V>(cached: Option<map<string, seq<V>>>, key: string, reply: Reply<V>, orEmpty: bool,
                              later: Reply<V>)
    requires ReadThrough(cached, key, reply, orEmpty).written.Some?
    ensures var o := ReadThrough(cached, key, reply, orEmpty);
            ReadThrough(o.written, key, later, orEmpty) == Outcome(o.value, false, false, None)
  {
  }

  /** A read-through for one key never changes what the cookie holds for another. */
  lemma ReadThroughFrame<V>(cached: Option<map<string, seq<V>>>, key: string, reply: Reply<V>, orEmpty: bool,
                            other: string)
    requires other != key && ReadThrough(cached, key, reply, orEmpty).written.Some?
    ensures var w := ReadThrough(cached, key, reply, orEmpty).written.value;
            Hit(Some(w), other) <==> Hit(cached, other)
    ensures var w := ReadThrough(cached, key, reply, orEmpty).written.value;
            Hit(cached, other) ==> w[other] == cached.value[other]
  {
  }
}
