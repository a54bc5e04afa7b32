/** `URLSearchParams` as the URL Standard (WHATWG) defines it: an ordered list of name-value
    pairs in which a name may occur more than once. */
module SearchParams {
  import opened JsValues

  datatype Param = Param(name: string, value: string)

  /** `get(name)`: the value of the first pair with that name, `null` (here `None`) if none. */
  function Get(ps: seq<Param>, name: string): (r: Option<string>)
    ensures r.None? <==> forall i :: 0 <= i < |ps| ==> ps[i].name != name
    ensures r.Some? ==> exists i :: 0 <= i < |ps| && ps[i] == Param(name, r.value) &&
                                    forall j :: 0 <= j < i ==> ps[j].name != name
  {
    if ps == [] then None
    else if ps[0].name == name then Some(ps[0].value)
    else
      var r := Get(ps[1..], name);
      assert r.Some? ==> exists i :: 0 <= i < |ps| && ps[i] == Param(name, r.value) &&
                                     forall j :: 0 <= j < i ==> ps[j].name != name by {
        if r.Some? {
          var i :| 0 <= i < |ps[1..]| && ps[1..][i] == Param(name, r.value) &&
                   forall j :: 0 <= j < i ==> ps[1..][j].name != name;
          assert ps[i + 1] == Param(name, r.value);
          assert forall j :: 0 <= j < i + 1 ==> ps[j].name != name by {
            forall j | 0 <= j < i + 1 ensures ps[j].name != name {
              if j > 0 { assert ps[j] == ps[1..][j - 1]; }
            }
          }
        }
      }
      r
  }

  /** The pairs whose name is not `name`, in their order. */
  function Without(ps: seq<Param>, name: string): (r: seq<Param>)
    ensures forall i :: 0 <= i < |r| ==> r[i].name != name && r[i] in ps
  {
    if ps == [] then []
    else if ps[0].name == name then Without(ps[1..], name)
    else [ps[0]] + Without(ps[1..], name)
  }

  /** How many pairs are named `name`. */
  function Count(ps: seq<Param>, name: string): nat {
    if ps == [] then 0 else (if ps[0].name == name then 1 else 0) + Count(ps[1..], name)
  }

  /** `set(name, value)`: the first pair with that name takes the value and the other pairs
      with that name are removed; if there is none, the pair is appended. */
  function Set(ps: seq<Param>, name: string, value: string): seq<Param> {
    if ps == [] then [Param(name, value)]
    else if ps[0].name == name then [Param(name, value)] + Without(ps[1..], name)
    else [ps[0]] + Set(ps[1..], name, value)
  }

  lemma {:induction false} WithoutCount(ps: seq<Param>, name: string)
    ensures Count(Without(ps, name), name) == 0
    ensures Without(Without(ps, name), name) == Without(ps, name)
  {
    if ps != [] {
      WithoutCount(ps[1..], name);
    }
  }

  lemma {:induction false} WithoutOtherGet(ps: seq<Param>, name: string, other: string)
    requires other != name
    ensures Get(Without(ps, name), other) == Get(ps, other)
  {
    if ps != [] {
      WithoutOtherGet(ps[1..], name, other);
    }
  }

  /** After `set(name, value)`, `get(name)` answers `value`. */
  lemma {:induction false} SetThenGet(ps: seq<Param>, name: string, value: string)
    ensures Get(Set(ps, name, value), name) == Some(value)
  {
    if ps != [] && ps[0].name != name {
      SetThenGet(ps[1..], name, value);
    }
  }

  /** `set(name, value)` does not change what `get` answers for any other name. */
  lemma {:induction false} SetThenGetOther(ps: seq<Param>, name: string, value: string, other: string)
    requires other != name
    ensures Get(Set(ps, name, value), other) == Get(ps, other)
  {
    if ps != [] {
      if ps[0].name == name {
        WithoutOtherGet(ps[1..], name, other);
      } else {
        SetThenGetOther(ps[1..], name, value, other);
      }
    }
  }

  /** `set(name, value)` keeps every pair of another name, in order, and leaves exactly one
      pair named `name`. */
  lemma {:induction false} SetKeepsOtherPairs(ps: seq<Param>, name: string, value: string)
    ensures Without(Set(ps, name, value), name) == Without(ps, name)
    ensures Count(Set(ps, name, value), name) == 1
  {
    if ps != [] {
      if ps[0].name == name {
        WithoutCount(ps[1..], name);
      } else {
        SetKeepsOtherPairs(ps[1..], name, value);
      }
    }
  }

  /** Setting the same pair twice is setting it once. */
  lemma {:induction false} SetIdempotent(ps: seq<Param>, name: string, value: string)
    ensures Set(Set(ps, name, value), name, value) == Set(ps, name, value)
  {
    if ps != [] {
      if ps[0].name == name {
        WithoutCount(ps[1..], name);
      } else {
        SetIdempotent(ps[1..], name, value);
      }
    }
  }

  /** The dictionary view of the list: each name with the value `get` answers for it. */
  function AsMap(ps: seq<Param>): (m: map<string, string>)
    ensures forall name :: name in m <==> Get(ps, name).Some?
    ensures forall name :: name in m ==> Some(m[name]) == Get(ps, name)
  {
    if ps == [] then map[] else AsMap(ps[1..])[ps[0].name := ps[0].value]
  }

  /** One key of the dictionary view after `set`: the written entry, or the entry before. */
  lemma SetAsMapAt(ps: seq<Param>, name: string, value: string, k: string)
    ensures k in AsMap(Set(ps, name, value)) <==> k in AsMap(ps)[name := value]
    ensures k in AsMap(Set(ps, name, value)) ==> AsMap(Set(ps, name, value))[k] == AsMap(ps)[name := value][k]
  {
    if k == name {
      SetThenGet(ps, name, value);
    } else {
      SetThenGetOther(ps, name, value, k);
    }
  }

  /** In the dictionary view, `set` writes one entry and leaves every other entry alone. */
  lemma SetAsMap(ps: seq<Param>, name: string, value: string)
    ensures AsMap(Set(ps, name, value)) == AsMap(ps)[name := value]
  {
    var after, before := AsMap(Set(ps, name, value)), AsMap(ps)[name := value];
    forall k
      ensures (k in after <==> k in before) && (k in after ==> after[k] == before[k])
    {
      SetAsMapAt(ps, name, value, k);
    }
    assert after.Keys == before.Keys;
  }
}
