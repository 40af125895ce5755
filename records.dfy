/**
  String-keyed records with the semantics of JavaScript objects as the two
  pages use them: the entries keep insertion order (what `Object.entries`
  and `Object.keys` iterate), a spread update `{ ...prev, [k]: v }` replaces
  the value of an existing key in place and appends a new key at the end,
  and `Object.fromEntries` is a left-to-right sequence of such updates.
*/
module Records {

  datatype Option<+T> = None | Some(value: T) {
    /** `x ?? d`, `x || d` for a value that is never falsy, `dict.get(k, d)` */
    function GetOr(default: T): T {
      match this
      case Some(v) => v
      case None => default
    }
  }

  type Entries<V> = seq<(string, V)>

  function Keys<V>(r: Entries<V>): seq<string> {
    seq(|r|, i requires 0 <= i < |r| => r[i].0)
  }

  predicate DistinctKeys<V>(r: Entries<V>) {
    forall i, j | 0 <= i < j < |r| :: r[i].0 != r[j].0
  }

  /** Property lookup `r[k]`: the value of the first entry with key k. */
  function Get<V>(r: Entries<V>, k: string): (o: Option<V>)
    ensures o.None? <==> k !in Keys(r)
    ensures o.Some? ==> (k, o.value) in r
  {
    if r == [] then None
    else
      assert Keys(r) == [r[0].0] + Keys(r[1..]);
      if r[0].0 == k then Some(r[0].1) else Get(r[1..], k)
  }

  /** The spread update `{ ...r, [k]: v }`. */
  function Set<V>(r: Entries<V>, k: string, v: V): (r': Entries<V>)
    ensures Get(r', k) == Some(v)
    ensures forall k' | k' != k :: Get(r', k') == Get(r, k')
  {
    if r == [] then [(k, v)]
    else if r[0].0 == k then
      GetCons((k, v), r[1..]);
      [(k, v)] + r[1..]
    else
      var rest := Set(r[1..], k, v);
      assert r == [r[0]] + r[1..];
      GetCons(r[0], r[1..]);
      GetCons(r[0], rest);
      [r[0]] + rest
  }

  /** Looking up a key in a record that starts with entry h. */
  lemma GetCons<V>(h: (string, V), t: Entries<V>)
    ensures forall k :: Get([h] + t, k) == if h.0 == k then Some(h.1) else Get(t, k)
  {
    assert ([h] + t)[1..] == t;
  }

  /** Updating an existing key keeps it in its place: the keys stay as they were. */
  lemma {:induction false} SetExisting<V>(r: Entries<V>, k: string, v: V)
    requires k in Keys(r)
    ensures Keys(Set(r, k, v)) == Keys(r)
  {
    assert Keys(r) == [r[0].0] + Keys(r[1..]);
    if r[0].0 == k {
      assert Keys([(k, v)] + r[1..]) == Keys(r);
    } else {
      var rest := Set(r[1..], k, v);
      SetExisting(r[1..], k, v);
      assert Keys([r[0]] + rest) == [r[0].0] + Keys(rest);
    }
  }

  /** A new key is appended at the end. */
  lemma {:induction false} SetNew<V>(r: Entries<V>, k: string, v: V)
    requires k !in Keys(r)
    ensures Set(r, k, v) == r + [(k, v)]
  {
    if r != [] {
      assert Keys(r) == [r[0].0] + Keys(r[1..]);
      SetNew(r[1..], k, v);
      assert r == [r[0]] + r[1..];
    }
  }

  /** After the update the keys are the old keys and k. */
  lemma SetKeys<V>(r: Entries<V>, k: string, v: V)
    ensures forall k' :: k' in Keys(Set(r, k, v)) <==> k' in Keys(r) || k' == k
  {
    forall k' ensures k' in Keys(Set(r, k, v)) <==> k' in Keys(r) || k' == k {
      assert Get(Set(r, k, v), k').Some? <==> Get(r, k').Some? || k' == k;
    }
  }

  /** The update makes up no entry other than (k, v). */
  lemma {:induction false} SetEntries<V>(r: Entries<V>, k: string, v: V)
    ensures forall e | e in Set(r, k, v) :: e == (k, v) || e in r
  {
    if r != [] && r[0].0 != k {
      SetEntries(r[1..], k, v);
    }
  }

  /** `Object.fromEntries(es)`: the entries assigned one after the other. */
  function FromEntries<V>(es: Entries<V>): (r: Entries<V>)
    ensures forall k :: k in Keys(r) <==> k in Keys(es)
    ensures forall e | e in r :: e in es
  {
    if es == [] then []
    else
      var init, last := es[..|es| - 1], es[|es| - 1];
      var r := Set(FromEntries(init), last.0, last.1);
      SetEntries(FromEntries(init), last.0, last.1);
      SetKeys(FromEntries(init), last.0, last.1);
      assert Keys(es) == Keys(init) + [last.0];
      assert es == init + [last];
      r
  }

  /** Building a record from entries whose keys are already distinct gives back those entries. */
  lemma {:induction false} FromDistinctEntries<V>(es: Entries<V>)
    requires DistinctKeys(es)
    ensures FromEntries(es) == es
  {
    if es != [] {
      var init, last := es[..|es| - 1], es[|es| - 1];
      DistinctInit(es);
      FromDistinctEntries(init);
      SetNew(init, last.0, last.1);
      assert init + [last] == es;
    }
  }

  /** Dropping the last entry keeps the keys distinct, and the dropped key is not among them. */
  lemma DistinctInit<V>(es: Entries<V>)
    requires DistinctKeys(es) && es != []
    ensures DistinctKeys(es[..|es| - 1])
    ensures es[|es| - 1].0 !in Keys(es[..|es| - 1])
  {
    var init := es[..|es| - 1];
    forall i, j | 0 <= i < j < |init| ensures init[i].0 != init[j].0 {
      assert init[i] == es[i] && init[j] == es[j];
    }
    forall k | 0 <= k < |init| ensures Keys(init)[k] != es[|es| - 1].0 {
      assert init[k] == es[k];
    }
  }

  /** In a record without repeated keys, looking up the key of an entry gives that entry's value. */
  lemma {:induction false} GetEntry<V>(r: Entries<V>, i: nat)
    requires DistinctKeys(r) && i < |r|
    ensures Get(r, r[i].0) == Some(r[i].1)
  {
    if i > 0 {
      assert r[0].0 != r[i].0;
      assert r[1..][i - 1] == r[i];
      GetEntry(r[1..], i - 1);
    }
  }

  /** `r[k] || fallback` for string values: the empty string is falsy, like a missing key. */
  function GetOrFallback(r: Entries<string>, k: string, fallback: string): (s: string)
    ensures k !in Keys(r) ==> s == fallback
    ensures s == fallback || (k, s) in r
    ensures s == "" ==> fallback == ""
  {
    match Get(r, k)
    case Some(v) => if v != "" then v else fallback
    case None => fallback
  }

  lemma GetOrFallbackFound(r: Entries<string>, k: string, v: string, fallback: string)
    requires Get(r, k) == Some(v) && v != ""
    ensures GetOrFallback(r, k, fallback) == v
  {
  }
}
