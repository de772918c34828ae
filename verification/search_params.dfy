/**
 The list behind a URLSearchParams object (section 6.2 of the WHATWG URL Standard):
 an ordered list of name-value pairs in which a name may occur more than once.
 `get` reads the first value stored under a name, `set` overwrites the first pair
 with that name and drops the others (or appends a pair when there is none), and
 `delete` drops every pair with that name.

 Contracts are phrased through `Values(p, name)`, the values stored under one
 name in list order: two lists that agree on `Values` for a name look the same
 to every accessor of that name.
 */
module SearchParams {
  import opened Wrappers

  type Pair = (string, string)
  type Params = seq<Pair>

  /** The values stored under `name`, in list order. */
  function Values(p: Params, name: string): seq<string>
  {
    if p == [] then []
    else (if p[0].0 == name then [p[0].1] else []) + Values(p[1..], name)
  }

  /** The names of the pairs, in list order (a name occurs once per pair). */
  function Names(p: Params): (ns: seq<string>)
    ensures |ns| == |p|
    ensures forall i :: 0 <= i < |p| ==> ns[i] == p[i].0
  {
    if p == [] then [] else [p[0].0] + Names(p[1..])
  }

  /** URLSearchParams `has(name)`. */
  predicate Has(p: Params, name: string)
  {
    Values(p, name) != []
  }

  lemma {:induction false} ValuesCons(x: Pair, s: Params)
    ensures forall n :: Values([x] + s, n) == (if x.0 == n then [x.1] else []) + Values(s, n)
  {
    assert ([x] + s)[0] == x;
    assert ([x] + s)[1..] == s;
  }

  lemma {:induction false} ValuesAppend(a: Params, b: Params)
    ensures forall n :: Values(a + b, n) == Values(a, n) + Values(b, n)
  {
    if a == [] {
      assert a + b == b;
    } else {
      ValuesAppend(a[1..], b);
      assert a + b == [a[0]] + (a[1..] + b);
      ValuesCons(a[0], a[1..] + b);
      ValuesCons(a[0], a[1..]);
      assert a == [a[0]] + a[1..];
    }
  }

  lemma ValuesAppendAt(a: Params, b: Params, name: string)
    ensures Values(a + b, name) == Values(a, name) + Values(b, name)
  {
    ValuesAppend(a, b);
  }

  /** A name no pair carries has no values. */
  lemma {:induction false} ValuesAbsent(p: Params, name: string)
    requires forall i :: 0 <= i < |p| ==> p[i].0 != name
    ensures Values(p, name) == []
  {
    if p != [] {
      ValuesAbsent(p[1..], name);
    }
  }

  lemma {:induction false} NamesAppend(a: Params, b: Params)
    ensures Names(a + b) == Names(a) + Names(b)
  {
    if a == [] {
      assert a + b == b;
    } else {
      assert (a + b)[0] == a[0];
      assert (a + b)[1..] == a[1..] + b;
      NamesAppend(a[1..], b);
    }
  }

  /** URLSearchParams `get(name)`: the value of the first pair named `name`. */
  function Get(p: Params, name: string): (r: Option<string>)
    ensures r.None? <==> Values(p, name) == []
    ensures r.Some? ==> r.value == Values(p, name)[0]
  {
    if p == [] then None
    else if p[0].0 == name then Some(p[0].1)
    else Get(p[1..], name)
  }

  /** The position of the first pair named `name`. */
  function FirstIndex(p: Params, name: string): (i: nat)
    requires Has(p, name)
    ensures i < |p| && p[i].0 == name
    ensures forall j :: 0 <= j < i ==> p[j].0 != name
  {
    if p[0].0 == name then 0 else 1 + FirstIndex(p[1..], name)
  }

  /** URLSearchParams `delete(name)`: removes every pair named `name`. */
  function Delete(p: Params, name: string): (r: Params)
    ensures Values(r, name) == []
    ensures forall n :: n != name ==> Values(r, n) == Values(p, n)
  {
    if p == [] then []
    else if p[0].0 == name then Delete(p[1..], name)
    else ValuesCons(p[0], Delete(p[1..], name)); [p[0]] + Delete(p[1..], name)
  }

  /** Deleting a name the list does not hold changes nothing. */
  lemma {:induction false} DeleteAbsent(p: Params, name: string)
    requires !Has(p, name)
    ensures Delete(p, name) == p
  {
    if p != [] {
      DeleteAbsent(p[1..], name);
    }
  }

  /** Deleting distributes over concatenation. */
  lemma {:induction false} DeleteAppend(a: Params, b: Params, name: string)
    ensures Delete(a + b, name) == Delete(a, name) + Delete(b, name)
  {
    if a == [] {
      assert a + b == b;
    } else {
      var ab := a + b;
      DeleteAppend(a[1..], b, name);
      assert ab[0] == a[0];
      assert ab[1..] == a[1..] + b;
      if a[0].0 != name {
        calc {
          Delete(ab, name);
          [a[0]] + Delete(a[1..] + b, name);
          [a[0]] + (Delete(a[1..], name) + Delete(b, name));
          ([a[0]] + Delete(a[1..], name)) + Delete(b, name);
        }
      }
    }
  }

  /** The `set` step for a list that already holds `name`. */
  function SetFirst(p: Params, name: string, value: string): (r: Params)
    requires Has(p, name)
    ensures Values(r, name) == [value]
    ensures forall n :: n != name ==> Values(r, n) == Values(p, n)
  {
    if p[0].0 == name then
      var rest := Delete(p[1..], name);
      ValuesCons((name, value), rest);
      [(name, value)] + rest
    else
      var rest := SetFirst(p[1..], name, value);
      ValuesCons(p[0], rest);
      [p[0]] + rest
  }

  /**
   URLSearchParams `set(name, value)`: afterwards `name` holds exactly `value`
   and every other name keeps its values; a name the list did not hold is
   appended at the end.
   */
  function Set(p: Params, name: string, value: string): (r: Params)
    ensures Values(r, name) == [value]
    ensures forall n :: n != name ==> Values(r, n) == Values(p, n)
    ensures !Has(p, name) ==> r == p + [(name, value)]
  {
    if Has(p, name) then SetFirst(p, name, value)
    else
      ValuesAppend(p, [(name, value)]);
      ValuesCons((name, value), []);
      assert [(name, value)] + [] == [(name, value)];
      p + [(name, value)]
  }

  lemma {:induction false} SetFirstThenDelete(p: Params, name: string, value: string)
    requires Has(p, name)
    ensures Delete(SetFirst(p, name, value), name) == Delete(p, name)
    ensures FirstIndex(SetFirst(p, name, value), name) == FirstIndex(p, name)
  {
    var r := SetFirst(p, name, value);
    if p[0].0 == name {
      var rest := Delete(p[1..], name);
      assert r == [(name, value)] + rest;
      assert r[0] == (name, value) && r[1..] == rest;
      DeleteIdempotent(p[1..], name);
      assert Delete(r, name) == Delete(rest, name);
    } else {
      var rest := SetFirst(p[1..], name, value);
      assert r == [p[0]] + rest;
      assert r[0] == p[0] && r[1..] == rest;
      SetFirstThenDelete(p[1..], name, value);
      assert Delete(r, name) == [p[0]] + Delete(rest, name);
    }
  }

  /**
   `set` changes nothing but the pairs named `name`: deleting `name` afterwards
   gives what deleting it before gives, so the other pairs keep their order;
   and a name already present keeps the position of its first pair.
   */
  lemma SetThenDelete(p: Params, name: string, value: string)
    ensures Delete(Set(p, name, value), name) == Delete(p, name)
    ensures Has(p, name) ==> FirstIndex(Set(p, name, value), name) == FirstIndex(p, name)
  {
    if Has(p, name) {
      SetFirstThenDelete(p, name, value);
    } else {
      DeleteAppend(p, [(name, value)], name);
      assert Delete([(name, value)], name) == [];
    }
  }

  /** Setting a name to the one value it already holds changes nothing. */
  lemma {:induction false} SetSame(p: Params, name: string, value: string)
    requires Values(p, name) == [value]
    ensures Set(p, name, value) == p
  {
    if p[0].0 == name {
      assert Values(p, name) == [p[0].1] + Values(p[1..], name);
      assert Values(p, name)[0] == p[0].1;
      assert p[0] == (name, value);
      assert Values(p[1..], name) == [];
      DeleteAbsent(p[1..], name);
      assert p == [(name, value)] + p[1..];
    } else {
      assert Values(p[1..], name) == [value];
      SetSame(p[1..], name, value);
      assert p == [p[0]] + p[1..];
    }
  }

  /** `set` is idempotent. */
  lemma SetIdempotent(p: Params, name: string, value: string)
    ensures Set(Set(p, name, value), name, value) == Set(p, name, value)
  {
    SetSame(Set(p, name, value), name, value);
  }

  /** `delete` is idempotent. */
  lemma DeleteIdempotent(p: Params, name: string)
    ensures Delete(Delete(p, name), name) == Delete(p, name)
  {
    DeleteAbsent(Delete(p, name), name);
  }
}
