/** The JSON values that make up request bodies and search results. */
module Json {
  import opened Wrappers

  /** A JSON document: Python's None, bool, int, str, list and dict. */
  datatype Json =
    | JNull
    | JBool(b: bool)
    | JInt(i: int)
    | JStr(s: string)
    | JList(items: seq<Json>)
    | JObject(fields: map<string, Json>)

  /** `d.update(kw)` for a sequence of (key, value) pairs, applied left to right. */
  function UpdateWith(base: map<string, Json>, kw: seq<(string, Json)>): map<string, Json>
  {
    if kw == [] then base
    else UpdateWith(base, kw[..|kw| - 1])[kw[|kw| - 1].0 := kw[|kw| - 1].1]
  }

  /** The value the last pair for key `k` in `kw` carries, if any pair has that key. */
  function LastAssigned(kw: seq<(string, Json)>, k: string): (r: Option<Json>)
    ensures r.Some? <==> exists i :: 0 <= i < |kw| && kw[i].0 == k
  {
    if kw == [] then None
    else if kw[|kw| - 1].0 == k then Some(kw[|kw| - 1].1)
    else LastAssigned(kw[..|kw| - 1], k)
  }

  /** After an update, a key assigned by some pair holds the value of the last such pair;
      every other key is as in the base, present or absent. */
  lemma {:induction false} UpdateWithLookup(base: map<string, Json>, kw: seq<(string, Json)>, k: string)
    ensures LastAssigned(kw, k).Some? ==> k in UpdateWith(base, kw) && UpdateWith(base, kw)[k] == LastAssigned(kw, k).value
    ensures LastAssigned(kw, k).None? ==> (k in UpdateWith(base, kw) <==> k in base)
    ensures LastAssigned(kw, k).None? && k in base ==> UpdateWith(base, kw)[k] == base[k]
  {
    if kw != [] {
      UpdateWithLookup(base, kw[..|kw| - 1], k);
    }
  }
}
