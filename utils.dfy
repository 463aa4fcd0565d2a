/** Dictionary projection: `subdict` keeps a chosen selection of a dictionary's keys, optionally
    filling the missing ones with a default. Python's `None` is the JSON null. */
module Utils {
  import opened Json

  /** Whether a requested field makes it into the result: when present, or always once a
      non-null default (or `force`) asks for filling. */
  predicate Selected(fromdict: map<string, Json>, default: Json, force: bool, k: string)
  {
    k in fromdict || force || default != JNull
  }

  /** `subdict(fromdict, fields, default, force)`: `fromdict.get(k, default)` for each selected
      field. */
  function Subdict(fromdict: map<string, Json>, fields: seq<string>, default: Json := JNull, force: bool := false)
    : (r: map<string, Json>)
    ensures forall k :: k in r ==> k in fields
  {
    map k | k in fields && Selected(fromdict, default, force, k) ::
      if k in fromdict then fromdict[k] else default
  }

  /** The key sets and values the docstring promises, case by case. */
  lemma SubdictKeysAndValues(fromdict: map<string, Json>, fields: seq<string>, default: Json, force: bool)
    ensures default == JNull && !force ==>
      Subdict(fromdict, fields, default, force).Keys == (set k | k in fields && k in fromdict)
    ensures forall k :: k in fields && k in fromdict ==>
      k in Subdict(fromdict, fields, default, force) && Subdict(fromdict, fields, default, force)[k] == fromdict[k]
    ensures default != JNull || force ==>
      Subdict(fromdict, fields, default, force).Keys == (set k | k in fields)
    ensures forall k :: k in fields && k !in fromdict && (default != JNull || force) ==>
      Subdict(fromdict, fields, default, force)[k] == default
  {
  }

  /** Projecting a projection again onto the same fields changes nothing. */
  lemma SubdictIdempotent(fromdict: map<string, Json>, fields: seq<string>, default: Json, force: bool)
    ensures Subdict(Subdict(fromdict, fields, default, force), fields, default, force)
      == Subdict(fromdict, fields, default, force)
  {
  }
}
