/**
 * A decoded JSON document, as `json.loads` hands it to the agent.
 *
 * An object is the Python dict that decoding builds: its members in insertion
 * order. Keys are assumed distinct, as `json.loads` makes them by keeping the
 * last of any duplicates; `Get` reads the first match and is faithful only
 * under that assumption. Numbers are integers only.
 */
module Json {
  import opened Wrappers

  datatype Json =
    | JNull
    | JBool(b: bool)
    | JNum(n: int)
    | JStr(s: string)
    | JList(items: seq<Json>)
    | JObject(members: seq<Member>)

  datatype Member = Member(key: string, value: Json)

  /** `key in d` for a decoded dict. */
  predicate HasKey(members: seq<Member>, key: string) {
    exists i :: 0 <= i < |members| && members[i].key == key
  }

  /** `d.get(key)`: the value of the first member stored under `key`, if any. */
  function Get(members: seq<Member>, key: string): Option<Json> {
    if members == [] then None
    else if members[0].key == key then Some(members[0].value)
    else Get(members[1..], key)
  }

  /** `Get` finds a value exactly when the key is present, and the value is stored under that key. */
  lemma {:induction false} GetSpec(members: seq<Member>, key: string)
    ensures Get(members, key).None? <==> !HasKey(members, key)
    ensures Get(members, key).Some? ==>
      exists i :: 0 <= i < |members| && members[i] == Member(key, Get(members, key).value)
  {
    if members != [] && members[0].key != key {
      var tail := members[1..];
      GetSpec(tail, key);
      if HasKey(tail, key) {
        var i :| 0 <= i < |tail| && tail[i].key == key;
        assert members[i + 1].key == key;
      }
      if HasKey(members, key) {
        var i :| 0 <= i < |members| && members[i].key == key;
        assert tail[i - 1].key == key;
      }
      if Get(tail, key).Some? {
        var i :| 0 <= i < |tail| && tail[i] == Member(key, Get(tail, key).value);
        assert members[i + 1] == tail[i];
      }
    } else if members != [] {
      assert members[0].key == key;
    }
  }

  /** A member whose key no earlier member has is the one `Get` finds. */
  lemma {:induction false} GetAt(members: seq<Member>, i: int)
    requires 0 <= i < |members|
    requires forall j :: 0 <= j < i ==> members[j].key != members[i].key
    ensures Get(members, members[i].key) == Some(members[i].value)
  {
    if i > 0 {
      var tail := members[1..];
      assert tail[i - 1] == members[i];
      forall j | 0 <= j < i - 1 ensures tail[j].key != tail[i - 1].key {
        assert tail[j] == members[j + 1];
      }
      GetAt(tail, i - 1);
    }
  }

  /** A member appended under another key leaves every lookup of `key` as it was. */
  lemma {:induction false} GetAppendOther(members: seq<Member>, m: Member, key: string)
    requires m.key != key
    ensures Get(members + [m], key) == Get(members, key)
  {
    if members != [] {
      assert (members + [m])[1..] == members[1..] + [m];
      GetAppendOther(members[1..], m, key);
    }
  }

  /** The JSON list whose elements are the given strings, in order. */
  function StrList(strs: seq<string>): (j: Json)
    ensures j.JList? && |j.items| == |strs|
    ensures forall i :: 0 <= i < |strs| ==> j.items[i] == JStr(strs[i])
  {
    JList(seq(|strs|, i requires 0 <= i < |strs| => JStr(strs[i])))
  }

  /** Reads a JSON value as a list of strings; `None` for any other shape. */
  function AsStrings(j: Json): Option<seq<string>> {
    if j.JList? && forall i :: 0 <= i < |j.items| ==> j.items[i].JStr? then
      Some(seq(|j.items|, i requires 0 <= i < |j.items| => j.items[i].s))
    else None
  }

  /** A value reads as strings exactly when it is a list of strings, and it is then their encoding. */
  lemma AsStringsSpec(j: Json)
    ensures AsStrings(j).Some? <==> j.JList? && forall i :: 0 <= i < |j.items| ==> j.items[i].JStr?
    ensures AsStrings(j).Some? ==> j == StrList(AsStrings(j).value)
  {
    if AsStrings(j).Some? {
      assert StrList(AsStrings(j).value).items == j.items;
    }
  }

  /** Encoding a list of strings and reading it back gives the same list. */
  lemma AsStringsOfStrList(strs: seq<string>)
    ensures AsStrings(StrList(strs)) == Some(strs)
  {
    var r := AsStrings(StrList(strs));
    assert r.Some?;
    assert r.value == strs;
  }
}
