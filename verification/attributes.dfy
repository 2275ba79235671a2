/** The attribute map: add a key with an empty value, set a value, delete a
    key. */
module Attributes {
  import opened Optional

  /** `m` and `r` agree on every key other than `k`. */
  ghost predicate SameElsewhere(m: map<string, string>, r: map<string, string>, k: string) {
    forall k' :: k' != k ==> (k' in m <==> k' in r) && (k' in m ==> m[k'] == r[k'])
  }

  /** "Add" in the attribute dialog: defines key `k` with the empty value,
      overwriting a value already there. */
  function Add(m: map<string, string>, k: string): (r: map<string, string>)
    ensures r.Keys == m.Keys + {k}
    ensures r[k] == ""
    ensures SameElsewhere(m, r, k)
  {
    m[k := ""]
  }

  /** An input event on the value of key `k`; an event without a path is
      ignored. */
  function Set(m: map<string, string>, k: string, v: Option<string>): (r: map<string, string>)
    ensures v.None? ==> r == m
    ensures v.Some? ==> k in r && r[k] == v.value && r.Keys == m.Keys + {k}
    ensures SameElsewhere(m, r, k)
  {
    match v
    case None => m
    case Some(s) => m[k := s]
  }

  /** "Delete" on an attribute row: removes key `k`. */
  function Delete(m: map<string, string>, k: string): (r: map<string, string>)
    ensures r.Keys == m.Keys - {k}
    ensures SameElsewhere(m, r, k)
  {
    m - {k}
  }

  /** Adding a new key and deleting it again restores the map. */
  lemma AddThenDelete(m: map<string, string>, k: string)
    requires k !in m
    ensures Delete(Add(m, k), k) == m
  {
  }

  /** The last value typed for a key is the one kept, whatever came before. */
  lemma SetOverwrites(m: map<string, string>, k: string, v: string, w: string)
    ensures Set(Set(m, k, Some(v)), k, Some(w)) == Set(m, k, Some(w))
  {
  }

  /** Edits on different keys commute. */
  lemma SetCommutes(m: map<string, string>, k1: string, v1: string, k2: string, v2: string)
    requires k1 != k2
    ensures Set(Set(m, k1, Some(v1)), k2, Some(v2)) == Set(Set(m, k2, Some(v2)), k1, Some(v1))
  {
  }
}
