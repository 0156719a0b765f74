/** The speaker registry `profiles.json`: a JSON object from profile id to display name,
    kept in insertion order as Python dictionaries are. */
module Profiles {
  import opened Wrappers

  datatype Entry = Entry(id: string, name: string)

  type ProfileDict = seq<Entry>

  predicate UniqueIds(d: ProfileDict)
  {
    forall i, j :: 0 <= i < j < |d| ==> d[i].id != d[j].id
  }

  /** `d.keys()`, in insertion order. */
  function Keys(d: ProfileDict): (ks: seq<string>)
    ensures |ks| == |d|
    ensures forall i :: 0 <= i < |d| ==> ks[i] == d[i].id
  {
    if d == [] then [] else [d[0].id] + Keys(d[1..])
  }

  /** `d.values()`, in insertion order. */
  function Names(d: ProfileDict): (ns: seq<string>)
    ensures |ns| == |d|
    ensures forall i :: 0 <= i < |d| ==> ns[i] == d[i].name
  {
    if d == [] then [] else [d[0].name] + Names(d[1..])
  }

  /** `d[id]`, or `None` where Python raises `KeyError`. */
  function Lookup(d: ProfileDict, id: string): (r: Option<string>)
    ensures r.None? <==> id !in Keys(d)
    ensures r.Some? ==> exists i :: 0 <= i < |d| && d[i] == Entry(id, r.value) &&
                                    forall j :: 0 <= j < i ==> d[j].id != id
  {
    if d == [] then None
    else if d[0].id == id then Some(d[0].name)
    else Lookup(d[1..], id)
  }

  /** A successful lookup yields one of the registered names. */
  lemma {:induction false} LookupInNames(d: ProfileDict, id: string)
    ensures Lookup(d, id).Some? ==> Lookup(d, id).value in Names(d)
  {
    if d != [] && d[0].id != id {
      LookupInNames(d[1..], id);
    }
  }

  /** `d[id] = name`: replaces the value in place, or appends a new key at the end. */
  function Set(d: ProfileDict, id: string, name: string): ProfileDict
  {
    if d == [] then [Entry(id, name)]
    else if d[0].id == id then [Entry(id, name)] + d[1..]
    else [d[0]] + Set(d[1..], id, name)
  }

  /** After `d[id] = name` the id maps to the name and every other id keeps its name. */
  lemma {:induction false} SetLookup(d: ProfileDict, id: string, name: string)
    ensures Lookup(Set(d, id, name), id) == Some(name)
    ensures forall k :: k != id ==> Lookup(Set(d, id, name), k) == Lookup(d, k)
  {
    if d != [] && d[0].id != id {
      SetLookup(d[1..], id, name);
    }
  }

  /** The key order is kept; a new id goes last. */
  lemma {:induction false} SetKeys(d: ProfileDict, id: string, name: string)
    ensures Keys(Set(d, id, name)) == if id in Keys(d) then Keys(d) else Keys(d) + [id]
  {
    if d == [] {
    } else if d[0].id == id {
      assert Keys(Set(d, id, name)) == [id] + Keys(d[1..]);
    } else {
      SetKeys(d[1..], id, name);
      assert Keys(Set(d, id, name)) == [d[0].id] + Keys(Set(d[1..], id, name));
      assert Keys(d) == [d[0].id] + Keys(d[1..]);
    }
  }

  /** Ids stay unique. */
  lemma SetUnique(d: ProfileDict, id: string, name: string)
    requires UniqueIds(d)
    ensures UniqueIds(Set(d, id, name))
  {
    var r := Set(d, id, name);
    SetKeys(d, id, name);
    var ks := Keys(d);
    assert forall i, j :: 0 <= i < j < |ks| ==> ks[i] != ks[j];
    forall i, j | 0 <= i < j < |r| ensures r[i].id != r[j].id {
      assert r[i].id == Keys(r)[i] && r[j].id == Keys(r)[j];
    }
  }
}
