/** JSON values as the pipeline passes them around: the closed form of the
    `interface{}` documents that `encoding/json` produces, plus raw bytes for
    request and response bodies that are never looked inside. */
module Json {
  import opened Wrappers

  type Bytes = seq<bv8>

  datatype Value =
    | Null
    | Bool(b: bool)
    | Num(n: int)
    | Str(s: string)
    | Arr(items: seq<Value>)
    | Obj(members: seq<Member>)

  /** One `"name": value` pair of an object, in output order. */
  datatype Member = Member(name: string, value: Value)

  /** The value of the first member called `name`, if the value is an object
      that has one. */
  function Lookup(v: Value, name: string): (r: Option<Value>)
    ensures r.Some? ==> v.Obj? && Member(name, r.value) in v.members
    ensures r.None? ==> !v.Obj? || forall k :: 0 <= k < |v.members| ==> v.members[k].name != name
  {
    if v.Obj? then Find(v.members, name) else None
  }

  function Find(members: seq<Member>, name: string): (r: Option<Value>)
    ensures r.Some? ==> Member(name, r.value) in members
    ensures r.None? ==> forall k :: 0 <= k < |members| ==> members[k].name != name
  {
    if |members| == 0 then None
    else if members[0].name == name then Some(members[0].value)
    else
      var r := Find(members[1..], name);
      assert forall m :: m in members[1..] ==> m in members;
      r
  }

  /** A list of strings as a JSON array of strings, the way `[]string` marshals. */
  function Strings(xs: seq<string>): (r: Value)
    ensures r.Arr? && |r.items| == |xs|
    ensures forall k :: 0 <= k < |xs| ==> r.items[k] == Str(xs[k])
  {
    Arr(seq(|xs|, k requires 0 <= k < |xs| => Str(xs[k])))
  }

  /** Reads a JSON array of strings back into a list of strings. */
  function StringList(v: Value): (r: Option<seq<string>>)
    ensures r.Some? ==> v == Strings(r.value)
  {
    if v.Arr? && forall k :: 0 <= k < |v.items| ==> v.items[k].Str? then
      var xs := seq(|v.items|, k requires 0 <= k < |v.items| => v.items[k].s);
      assert v == Strings(xs);
      Some(xs)
    else None
  }

  lemma StringsRoundTrip(xs: seq<string>)
    ensures StringList(Strings(xs)) == Some(xs)
  {
    var v := Strings(xs);
    assert forall k :: 0 <= k < |v.items| ==> v.items[k].Str?;
    var ys := seq(|v.items|, k requires 0 <= k < |v.items| => v.items[k].s);
    assert ys == xs;
  }
}
