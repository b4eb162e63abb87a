/** `MergedSolrParams`: request parameters set on top of a fixed set of
    defaults. Local values live in an insertion-ordered map from names to
    arrays; a name whose value was removed is remembered, and from then on
    hides its default. */
module MergedParams {
  import opened Wrappers

  /** A Java `String[]` as a parameter value: the array itself may be null,
      and so may each of its members. */
  type Values = Option<seq<Option<string>>>

  /** The default parameters (a `ModifiableSolrParams`): a name absent from
      the map has no values. */
  type Defaults = map<string, seq<Option<string>>>

  /** The local state: the keys of the `values` LinkedHashMap in insertion
      order, the map itself and the set of names a value was removed from. */
  datatype Store = Store(keys: seq<string>, values: map<string, Values>, removed: set<string>)

  /** The keys list lists each key of the map exactly once. */
  ghost predicate WellFormed(st: Store) {
    && Distinct(st.keys)
    && (forall k :: k in st.values <==> k in st.keys)
  }

  /** `values.get(name)`: null for an absent name as for a name mapped to null. */
  function Local(st: Store, name: string): Values {
    if name in st.values then st.values[name] else None
  }

  /** The values of an array, a null array having none. */
  function Flat(v: Values): seq<Option<string>> {
    match v
    case None => []
    case Some(s) => s
  }

  /** `keys` without `name`. */
  function Without(keys: seq<string>, name: string): (r: seq<string>)
    ensures forall k :: k in r <==> k in keys && k != name
  {
    if keys == [] then []
    else if keys[0] == name then Without(keys[1..], name)
    else
      var rest := Without(keys[1..], name);
      assert forall k :: k in keys[1..] ==> k in keys;
      [keys[0]] + rest
  }

  lemma {:induction false} WithoutDistinct(keys: seq<string>, name: string)
    ensures Distinct(keys) ==> Distinct(Without(keys, name))
  {
    if keys != [] && Distinct(keys) {
      WithoutDistinct(keys[1..], name);
      assert Distinct(keys[1..]);
      if keys[0] != name {
        assert keys[0] !in keys[1..];
        assert Without(keys, name) == [keys[0]] + Without(keys[1..], name);
      }
    }
  }

  /** `values.put(name, v)`: an existing key keeps its place, a new one goes last. */
  function Put(st: Store, name: string, v: Values): (r: Store)
    ensures WellFormed(st) ==> WellFormed(r)
    ensures Local(r, name) == v
    ensures forall other :: other != name ==> Local(r, other) == Local(st, other)
    ensures name in st.values ==> r.keys == st.keys
    ensures name !in st.values ==> r.keys == st.keys + [name]
    ensures r.removed == st.removed
  {
    Store(if name in st.values then st.keys else st.keys + [name], st.values[name := v], st.removed)
  }

  /** `values.remove(name)`. */
  function Delete(st: Store, name: string): (r: Store)
    ensures WellFormed(st) ==> WellFormed(r)
    ensures name !in r.values && Local(r, name).None?
    ensures forall other :: other != name ==> Local(r, other) == Local(st, other)
    ensures r.removed == st.removed
  {
    WithoutDistinct(st.keys, name);
    Store(Without(st.keys, name), st.values - {name}, st.removed)
  }

  /** `set(name, val...)` removes the name when `val` is null or a single null. */
  predicate Unsets(val: Values) {
    val.None? || (|val.value| == 1 && val.value[0].None?)
  }

  /** `set(name, val...)`: the local values of `name` become `val`; no other
      name changes. */
  function SetValues(st: Store, name: string, val: Values): (r: Store)
    ensures WellFormed(st) ==> WellFormed(r)
    ensures Unsets(val) ==> name !in r.values
    ensures !Unsets(val) ==> name in r.values && r.values[name] == val
    ensures forall other :: other != name ==> Local(r, other) == Local(st, other)
    ensures r.removed == st.removed
  {
    if Unsets(val) then Delete(st, name) else Put(st, name, val)
  }

  /** `add(name, val...)`: appended after the old values; a null or empty
      `val` appends one null. With no old values, `val` is stored as it is. */
  function AddValues(st: Store, name: string, val: Values): (r: Store)
    ensures WellFormed(st) ==> WellFormed(r)
    ensures Local(st, name).None? ==> Local(r, name) == val
    ensures Local(st, name).Some? && (val.None? || val.value == []) ==>
      Local(r, name) == Some(Flat(Local(st, name)) + [None])
    ensures Local(st, name).Some? && val.Some? && val.value != [] ==>
      Local(r, name) == Some(Flat(Local(st, name)) + val.value)
    ensures forall other :: other != name ==> Local(r, other) == Local(st, other)
    ensures r.removed == st.removed
  {
    var old_ := Local(st, name);
    var st1 := Put(st, name, val);
    if old_.None? then st1
    else if val.None? || |val.value| < 1 then Put(st1, name, Some(old_.value + [None]))
    else Put(st1, name, Some(old_.value + val.value))
  }

  /** `clear()`: the local values go; the removed names stay removed. */
  function Cleared(st: Store): (r: Store)
    ensures WellFormed(r)
    ensures forall name :: Local(r, name).None?
    ensures r.removed == st.removed
  {
    Store([], map[], st.removed)
  }

  /** The scan of `remove(name, value)` from index `i`: the first index whose
      member equals `value`, none, or a NullPointerException when a null
      member is reached first (`tmp[i].equals(value)` on a null `tmp[i]`). */
  function MatchFrom(tmp: seq<Option<string>>, value: Option<string>, i: nat): (r: Result<Option<nat>>)
    requires i <= |tmp|
    ensures r.Ok? && r.value.Some? ==>
      && i <= r.value.value < |tmp| && value.Some? && tmp[r.value.value] == value
      && forall j :: i <= j < r.value.value ==> tmp[j].Some? && tmp[j] != value
    ensures r.Ok? && r.value.None? ==> forall j :: i <= j < |tmp| ==> tmp[j].Some? && tmp[j] != value
    ensures r.Err? ==> r.error == NullPointer && exists j :: i <= j < |tmp| && tmp[j].None?
    decreases |tmp| - i
  {
    if i == |tmp| then Ok(None)
    else if tmp[i].None? then Err(NullPointer)
    else if tmp[i] == value then Ok(Some(i))
    else MatchFrom(tmp, value, i + 1)
  }

  /** `remove(name, value)`: whether a value was removed, and the new state.
      The first equal member goes; the rest are stored with `set`, or the
      name is removed when none are left; either way the name is recorded
      as removed. */
  function RemoveValueOf(st: Store, name: string, value: Option<string>): Result<(bool, Store)> {
    var tmp := Local(st, name);
    if tmp.None? then Ok((false, st))
    else
      match MatchFrom(tmp.value, value, 0)
      case Err(e) => Err(e)
      case Ok(None) => Ok((false, st))
      case Ok(Some(i)) =>
        var rest := tmp.value[..i] + tmp.value[i + 1..];
        var st1 := if |rest| == 0 then Delete(st, name) else SetValues(st, name, Some(rest));
        Ok((true, st1.(removed := st1.removed + {name})))
  }

  /** `defaults.get(param)`: the first default value, or null. */
  function DefaultGet(defaults: Defaults, param: string): (r: Option<string>)
    ensures r.Some? ==> param in defaults && defaults[param] != [] && r == defaults[param][0]
  {
    if param in defaults && |defaults[param]| > 0 then defaults[param][0] else None
  }

  /** `get(param)`: the first local value; with no local value, the default
      unless the name was removed. A removed name mapped to an empty array
      fails on `val[0]`. */
  function GetOf(defaults: Defaults, st: Store, param: string): (r: Result<Option<string>>)
    ensures Flat(Local(st, param)) != [] ==> r == Ok(Flat(Local(st, param))[0])
    ensures Flat(Local(st, param)) == [] && param !in st.removed ==> r == Ok(DefaultGet(defaults, param))
    ensures Local(st, param).None? && param in st.removed ==> r == Ok(None)
    ensures r.Err? <==> Local(st, param) == Some([]) && param in st.removed
  {
    var val := Local(st, param);
    if (val.Some? && |val.value| > 0) || param in st.removed then
      if val.None? then Ok(None)
      else if |val.value| == 0 then Err(IndexOutOfBounds)
      else Ok(val.value[0])
    else Ok(DefaultGet(defaults, param))
  }

  /** `getParams(param)`: the local values followed by the default values;
      whichever side is missing or empty gives way to the other as it is. */
  function GetParamsOf(defaults: Defaults, st: Store, param: string): (r: Values)
    ensures Flat(r) == Flat(Local(st, param)) + (if param in defaults then defaults[param] else [])
    ensures r.None? ==> Local(st, param).None? && (param !in defaults || defaults[param] == [])
  {
    var main := Local(st, param);
    var extra: Values := if param in defaults then Some(defaults[param]) else None;
    if extra.None? || |extra.value| == 0 then main
    else if main.None? || |main.value| == 0 then extra
    else Some(main.value + extra.value)
  }

  /** A value set (not null, not a single null) is what `get` returns first
      and what `getParams` lists before the defaults. */
  lemma SetThenGet(defaults: Defaults, st: Store, name: string, vs: seq<Option<string>>)
    requires vs != [] && !Unsets(Some(vs))
    ensures GetOf(defaults, SetValues(st, name, Some(vs)), name) == Ok(vs[0])
    ensures Flat(GetParamsOf(defaults, SetValues(st, name, Some(vs)), name))
         == vs + (if name in defaults then defaults[name] else [])
  {
  }

  /** Setting null removes the local values: `get` falls back to the default
      unless the name was removed before, and `getParams` gives the defaults. */
  lemma SetNullFallsBack(defaults: Defaults, st: Store, name: string)
    ensures name !in st.removed ==> GetOf(defaults, SetValues(st, name, None), name) == Ok(DefaultGet(defaults, name))
    ensures name in st.removed ==> GetOf(defaults, SetValues(st, name, None), name) == Ok(None)
    ensures Flat(GetParamsOf(defaults, SetValues(st, name, None), name)) == (if name in defaults then defaults[name] else [])
  {
  }

  /** Adding keeps the old values in front, in order. */
  lemma AddKeepsOrder(defaults: Defaults, st: Store, name: string, vs: seq<Option<string>>)
    requires vs != []
    ensures Flat(GetParamsOf(defaults, AddValues(st, name, Some(vs)), name))
         == Flat(Local(st, name)) + vs + (if name in defaults then defaults[name] else [])
  {
    if Local(st, name).None? {
      assert Flat(Local(st, name)) + vs == vs;
    }
  }

  /** Removing a value deletes the first equal member and nothing else, and
      records the name as removed; a value not present changes nothing. */
  lemma RemoveValueDeletesFirst(st: Store, name: string, value: Option<string>)
    requires Local(st, name).Some?
    requires forall j :: 0 <= j < |Flat(Local(st, name))| ==> Flat(Local(st, name))[j].Some?
    ensures RemoveValueOf(st, name, value).Ok?
    ensures value !in Flat(Local(st, name)) ==> RemoveValueOf(st, name, value) == Ok((false, st))
    ensures value in Flat(Local(st, name)) ==>
      var old_ := Flat(Local(st, name));
      var (found, st1) := RemoveValueOf(st, name, value).value;
      && found && name in st1.removed
      && (exists i :: 0 <= i < |old_| && old_[i] == value && value !in old_[..i]
           && Flat(Local(st1, name)) == old_[..i] + old_[i + 1..])
  {
    var tmp := Flat(Local(st, name));
    var m := MatchFrom(tmp, value, 0);
    assert m.Ok?;
    if value in tmp {
      var j :| 0 <= j < |tmp| && tmp[j] == value;
      assert m.value.Some?;
      var i := m.value.value;
      assert value !in tmp[..i];
    }
  }

  /** Removing the only value of a name hides its default: `get` then
      returns null whatever the defaults hold. */
  lemma RemoveOnlyValueHidesDefault(defaults: Defaults, st: Store, name: string, v: string)
    requires Local(st, name) == Some([Some(v)])
    ensures RemoveValueOf(st, name, Some(v)).Ok?
    ensures var (found, st1) := RemoveValueOf(st, name, Some(v)).value;
      found && name !in st1.values && GetOf(defaults, st1, name) == Ok(None)
  {
    assert MatchFrom([Some(v)], Some(v), 0) == Ok(Some(0));
  }

  /** Removing a value of a name that has none fails when it reaches a null
      member first, as `tmp[i].equals(value)` does. */
  lemma RemoveValueNullMember(st: Store, name: string, value: Option<string>)
    requires Local(st, name).Some? && Flat(Local(st, name)) != [] && Flat(Local(st, name))[0].None?
    ensures RemoveValueOf(st, name, value) == Err(NullPointer)
  {
  }

  /** `clear()` hides the defaults of every name that was ever removed. */
  lemma ClearKeepsTombstones(defaults: Defaults, st: Store, name: string)
    requires name in st.removed
    ensures GetOf(defaults, Cleared(st), name) == Ok(None)
  {
  }

  class MergedSolrParams {
    const defaults: Defaults
    var keys: seq<string>
    var values: map<string, Values>
    var removed: set<string>

    function Contents(): Store
      reads this
    {
      Store(keys, values, removed)
    }

    ghost predicate Valid()
      reads this
    {
      WellFormed(Contents())
    }

    constructor(defaults: Defaults)
      ensures Valid()
      ensures this.defaults == defaults
      ensures Contents() == Store([], map[], {})
    {
      this.defaults := defaults;
      keys := [];
      values := map[];
      removed := {};
    }

    method Set(name: string, val: Values)
      requires Valid()
      modifies this
      ensures Valid()
      ensures Contents() == SetValues(old(Contents()), name, val)
    {
      var st := SetValues(Contents(), name, val);
      keys, values := st.keys, st.values;
    }

    method Add(name: string, val: Values)
      requires Valid()
      modifies this
      ensures Valid()
      ensures Contents() == AddValues(old(Contents()), name, val)
    {
      var st := AddValues(Contents(), name, val);
      keys, values := st.keys, st.values;
    }

    /** `remove(name)`: the old values, and the name is gone. */
    method Remove(name: string) returns (r: Values)
      requires Valid()
      modifies this
      ensures Valid()
      ensures r == Local(old(Contents()), name)
      ensures Contents() == Delete(old(Contents()), name)
    {
      r := Local(Contents(), name);
      var st := Delete(Contents(), name);
      keys, values := st.keys, st.values;
    }

    method Clear()
      requires Valid()
      modifies this
      ensures Valid()
      ensures Contents() == Cleared(old(Contents()))
    {
      keys, values := [], map[];
    }

    /** `remove(name, value)` with its scan loop. On an exception nothing changes. */
    method RemoveValue(name: string, value: Option<string>) returns (r: Result<bool>)
      requires Valid()
      modifies this
      ensures Valid()
      ensures var spec := RemoveValueOf(old(Contents()), name, value);
        && (spec.Err? ==> r == Err(spec.error) && Contents() == old(Contents()))
        && (spec.Ok? ==> r == Ok(spec.value.0) && Contents() == spec.value.1)
    {
      var tmp := Local(Contents(), name);
      if tmp.None? {
        return Ok(false);
      }
      var a := tmp.value;
      var i := 0;
      while i < |a|
        invariant 0 <= i <= |a|
        invariant Contents() == old(Contents())
        invariant MatchFrom(a, value, 0) == MatchFrom(a, value, i)
      {
        if a[i].None? {
          return Err(NullPointer);
        }
        if a[i] == value {
          var rest := a[..i] + a[i + 1..];
          if |rest| == 0 {
            var _ := Remove(name);
          } else {
            Set(name, Some(rest));
          }
          removed := removed + {name};
          return Ok(true);
        }
        i := i + 1;
      }
      return Ok(false);
    }

    method Get(param: string) returns (r: Result<Option<string>>)
      ensures r == GetOf(defaults, Contents(), param)
    {
      var val := Local(Contents(), param);
      if (val.Some? && |val.value| > 0) || param in removed {
        if val.None? {
          r := Ok(None);
        } else if |val.value| == 0 {
          r := Err(IndexOutOfBounds);
        } else {
          r := Ok(val.value[0]);
        }
      } else {
        r := Ok(DefaultGet(defaults, param));
      }
    }

    method GetParams(param: string) returns (r: Values)
      ensures r == GetParamsOf(defaults, Contents(), param)
    {
      var main := Local(Contents(), param);
      var extra: Values := if param in defaults then Some(defaults[param]) else None;
      if extra.None? || |extra.value| == 0 {
        return main;
      }
      if main.None? || |main.value| == 0 {
        return extra;
      }
      return Some(main.value + extra.value);
    }
  }
}
