/** `BaseRequest` of the Java client: the parameters of an API request, kept
    in insertion order, and the query string made from them. */
module BaseRequests {
  import opened Wrappers
  import opened Strings

  const QuerySeparator: char := '&'
  const DefaultSeparator: string := ","
  const Fields: string := "fields"
  const Site: string := "site"

  /** The `name=encoded value` entries of the query string, in the order the
      names were first set; a parameter whose value is null has no entry.
      `encode` stands for `URLEncoder.encode(value, "UTF-8")`. */
  function Entries(names: seq<string>, params: map<string, Option<string>>, encode: string -> string): (r: seq<string>)
    requires forall n :: n in names ==> n in params
    ensures |r| <= |names|
    ensures forall k :: 0 <= k < |r| ==> '=' in r[k]
    ensures r == [] <==> forall n :: n in names ==> params[n].None?
  {
    if names == [] then []
    else
      var init, last := names[..|names| - 1], names[|names| - 1];
      assert forall n :: n in names <==> n in init || n == last;
      var entry := if params[last].Some? then [last + "=" + encode(params[last].value)] else [];
      assert params[last].Some? ==> (last + "=" + encode(params[last].value))[|last|] == '=';
      Entries(init, params, encode) + entry
  }

  lemma EntriesSnoc(names: seq<string>, params: map<string, Option<string>>, encode: string -> string, name: string)
    requires forall n :: n in names ==> n in params
    requires name in params
    ensures Entries(names + [name], params, encode) == Entries(names, params, encode)
      + (if params[name].Some? then [name + "=" + encode(params[name].value)] else [])
  {
    assert (names + [name])[..|names|] == names;
  }

  /** With every value set, there is one entry per parameter, in order. */
  lemma {:induction false} EntriesAllSet(names: seq<string>, params: map<string, Option<string>>, encode: string -> string)
    requires forall n :: n in names ==> n in params && params[n].Some?
    ensures |Entries(names, params, encode)| == |names|
    ensures forall k :: 0 <= k < |names| ==>
      Entries(names, params, encode)[k] == names[k] + "=" + encode(params[names[k]].value)
    decreases |names|
  {
    if names != [] {
      var init := names[..|names| - 1];
      EntriesAllSet(init, params, encode);
      forall k | 0 <= k < |names| - 1
        ensures Entries(names, params, encode)[k] == names[k] + "=" + encode(params[names[k]].value)
      {
        assert init[k] == names[k];
      }
    }
  }

  /** The query string as meant: the entries joined by `&`, empty when there
      are none. */
  function QueryString(names: seq<string>, params: map<string, Option<string>>, encode: string -> string): (r: string)
    requires forall n :: n in names ==> n in params
    ensures r == [] <==> forall n :: n in names ==> params[n].None?
  {
    var entries := Entries(names, params, encode);
    if entries == [] then []
    else
      JoinNotEmpty(entries, [QuerySeparator]);
      Join(entries, [QuerySeparator])
  }

  lemma {:induction false} JoinNotEmpty(parts: seq<string>, sep: string)
    requires parts != [] && parts[0] != []
    ensures Join(parts, sep) != []
  {
  }

  /** With names free of `&` and an encoding that never yields `&` (as URL
      encoding does not), splitting the query string on `&` gives back its
      entries. */
  lemma QueryStringSplits(names: seq<string>, params: map<string, Option<string>>, encode: string -> string)
    requires forall n :: n in names ==> n in params && QuerySeparator !in n
    requires forall v :: QuerySeparator !in encode(v)
    ensures Split(QueryString(names, params, encode), {QuerySeparator}) == Entries(names, params, encode)
  {
    var entries := Entries(names, params, encode);
    EntriesFree(names, params, encode);
    if entries != [] {
      SplitJoin(entries, QuerySeparator);
    }
  }

  lemma {:induction false} EntriesFree(names: seq<string>, params: map<string, Option<string>>, encode: string -> string)
    requires forall n :: n in names ==> n in params && QuerySeparator !in n
    requires forall v :: QuerySeparator !in encode(v)
    ensures forall i :: 0 <= i < |Entries(names, params, encode)| ==> Entries(names, params, encode)[i] != []
    ensures forall i, k :: (0 <= i < |Entries(names, params, encode)| && 0 <= k < |Entries(names, params, encode)[i]|
      ==> Entries(names, params, encode)[i][k] != QuerySeparator)
    decreases |names|
  {
    if names != [] {
      var init, last := names[..|names| - 1], names[|names| - 1];
      assert forall n :: n in init ==> n in names;
      EntriesFree(init, params, encode);
      if params[last].Some? {
        var e := last + "=" + encode(params[last].value);
        assert forall k :: 0 <= k < |e| ==> e[k] in last || e[k] == '=' || e[k] in encode(params[last].value);
      }
    }
  }

  /** The text each field joins as: a null member is the empty string. */
  function FieldTexts(fields: seq<Option<string>>): (r: seq<string>)
    ensures |r| == |fields|
    ensures forall k :: 0 <= k < |fields| ==> r[k] == fields[k].GetOr([])
  {
    seq(|fields|, k requires 0 <= k < |fields| => fields[k].GetOr([]))
  }

  /** Every field is present, non-empty and free of the separator. */
  predicate PlainFields(fields: seq<Option<string>>) {
    forall k :: 0 <= k < |fields| ==> fields[k].Some? && ',' !in fields[k].value && fields[k].value != []
  }

  /** `StringUtils.join(fields, ",")`: plain fields split back into exactly
      the same fields, in order. */
  function JoinFields(fields: seq<Option<string>>): (r: string)
    ensures PlainFields(fields) ==> Split(r, {','}) == FieldTexts(fields)
    ensures PlainFields(fields) ==> forall k :: 0 <= k < |fields| ==> Split(r, {','})[k] == fields[k].value
  {
    var parts := FieldTexts(fields);
    assert PlainFields(fields) ==> Split(Join(parts, DefaultSeparator), {','}) == parts by {
      if PlainFields(fields) {
        SplitJoin(parts, ',');
      }
    }
    Join(parts, DefaultSeparator)
  }

  class BaseRequest {
    /** The keys of the `params` LinkedHashMap, in insertion order. */
    var names: seq<string>
    var params: map<string, Option<string>>

    ghost predicate Valid()
      reads this
    {
      Distinct(names) && forall n :: n in params <==> n in names
    }

    constructor()
      ensures Valid() && names == [] && params == map[]
    {
      names := [];
      params := map[];
    }

    /** `setParam`: the value replaces any earlier one; a new name goes last. */
    method SetParam(name: string, value: Option<string>)
      requires Valid()
      modifies this
      ensures Valid()
      ensures params == old(params)[name := value]
      ensures name in old(params) ==> names == old(names)
      ensures name !in old(params) ==> names == old(names) + [name]
    {
      if name !in params {
        names := names + [name];
      }
      params := params[name := value];
    }

    /** `getParam`: null for a name never set as for a name set to null. */
    function GetParam(name: string): (r: Option<string>)
      reads this
      ensures name !in params ==> r == None
      ensures name in params ==> r == params[name]
    {
      if name in params then params[name] else None
    }

    /** `addParam`: the first value is set as it is (null included); a later
        non-null value is appended after the separator; a later null leaves
        the parameter alone. */
    method AddParam(name: string, value: Option<string>, separator: string)
      requires Valid()
      modifies this
      ensures Valid()
      ensures old(GetParam(name)).None? ==> params == old(params)[name := value]
      ensures old(GetParam(name)).Some? && value.None? ==> params == old(params) && names == old(names)
      ensures old(GetParam(name)).Some? && value.Some? ==>
        params == old(params)[name := Some(old(GetParam(name)).value + separator + value.value)]
      ensures old(GetParam(name)).Some? ==> names == old(names)
      ensures name in old(params) ==> names == old(names)
      ensures name !in old(params) ==> names == old(names) + [name]
    {
      var current := GetParam(name);
      if current.None? {
        SetParam(name, value);
      } else if value.Some? {
        SetParam(name, Some(current.value + separator + value.value));
      }
    }

    /** `getQueryString` as written: empty with no parameters; otherwise the
        loop appends `name=value&` for every non-null value and then drops
        the last character. When every value is null there is no character
        to drop, and shortening the buffer to length -1 throws. */
    method GetQueryString(encode: string -> string) returns (r: Result<string>)
      requires Valid()
      ensures names == [] ==> r == Ok([])
      ensures names != [] && Entries(names, params, encode) == [] ==> r == Err(IndexOutOfBounds)
      ensures Entries(names, params, encode) != [] ==> r == Ok(QueryString(names, params, encode))
    {
      if |names| == 0 {
        return Ok([]);
      }
      var b: string := [];
      for i := 0 to |names|
        invariant b == Terminated(Entries(names[..i], params, encode), QuerySeparator)
      {
        var name := names[i];
        assert names[..i + 1] == names[..i] + [name];
        EntriesSnoc(names[..i], params, encode, name);
        var value := params[name];
        if value.Some? {
          TerminatedSnoc(Entries(names[..i], params, encode), name + "=" + encode(value.value), QuerySeparator);
          b := b + (name + "=" + encode(value.value)) + [QuerySeparator];
        } else {
          assert Entries(names[..i], params, encode) + [] == Entries(names[..i], params, encode);
        }
      }
      assert names[..|names|] == names;
      if |b| == 0 {
        return Err(IndexOutOfBounds);
      }
      TerminatedIsJoin(Entries(names, params, encode), QuerySeparator);
      return Ok(b[..|b| - 1]);
    }

    /** `setFields`: a null array throws; otherwise the fields joined by `,`
        replace the `fields` parameter. */
    method SetFields(fields: Option<seq<Option<string>>>) returns (error: Option<Exception>)
      requires Valid()
      modifies this
      ensures Valid()
      ensures fields.None? ==> error == Some(NullPointer) && params == old(params) && names == old(names)
      ensures fields.Some? ==> error.None? && params == old(params)[Fields := Some(JoinFields(fields.value))]
      ensures fields.Some? && Fields in old(params) ==> names == old(names)
      ensures fields.Some? && Fields !in old(params) ==> names == old(names) + [Fields]
    {
      if fields.None? {
        return Some(NullPointer);
      }
      SetParam(Fields, Some(JoinFields(fields.value)));
      return None;
    }

    /** `addField`. */
    method AddField(fieldName: Option<string>)
      requires Valid()
      modifies this
      ensures Valid()
      ensures old(GetParam(Fields)).None? ==> params == old(params)[Fields := fieldName]
      ensures old(GetParam(Fields)).Some? && fieldName.Some? ==>
        params == old(params)[Fields := Some(old(GetParam(Fields)).value + DefaultSeparator + fieldName.value)]
      ensures old(GetParam(Fields)).Some? && fieldName.None? ==> params == old(params)
      ensures Fields in old(params) ==> names == old(names)
      ensures Fields !in old(params) ==> names == old(names) + [Fields]
    {
      AddParam(Fields, fieldName, DefaultSeparator);
    }

    /** `setSite`. */
    method SetSite(site: Option<string>)
      requires Valid()
      modifies this
      ensures Valid()
      ensures params == old(params)[Site := site]
      ensures Site in old(params) ==> names == old(names)
      ensures Site !in old(params) ==> names == old(names) + [Site]
    {
      SetParam(Site, site);
    }
  }

  /** A request whose only parameter is null: the query string as written
      throws, where the query string meant is empty. */
  lemma NullOnlyParamQueryString(encode: string -> string)
    ensures Entries(["q"], map["q" := None], encode) == []
    ensures QueryString(["q"], map["q" := None], encode) == []
  {
  }
}
