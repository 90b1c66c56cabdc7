/**
 * Array filters of the frontend: dropping the entries that carry a given id, the
 * edges that touch a given node, and the occurrences of a given value.
 */
module ListOps {
  import opened Values

  /** `xs.filter(x => x.id !== id)`. */
  function WithoutId(xs: seq<Value>, id: Value): (r: seq<Value>)
    ensures |r| <= |xs|
  {
    if xs == [] then []
    else (if Get(xs[0], "id") != id then [xs[0]] else []) + WithoutId(xs[1..], id)
  }

  /** `es.filter(e => e.source !== id && e.target !== id)`. */
  function WithoutEndpoint(es: seq<Value>, id: Value): (r: seq<Value>)
    ensures |r| <= |es|
  {
    if es == [] then []
    else (if Get(es[0], "source") != id && Get(es[0], "target") != id then [es[0]] else []) + WithoutEndpoint(es[1..], id)
  }

  /** `xs.filter(x => x !== v)`. */
  function WithoutValue(xs: seq<Value>, v: Value): (r: seq<Value>)
    ensures |r| <= |xs|
  {
    if xs == [] then [] else (if xs[0] != v then [xs[0]] else []) + WithoutValue(xs[1..], v)
  }

  /** The filters keep exactly the entries their test accepts. */
  lemma {:induction false} WithoutIdMembers(xs: seq<Value>, id: Value)
    ensures forall x :: x in WithoutId(xs, id) <==> x in xs && Get(x, "id") != id
  {
    if xs != [] {
      WithoutIdMembers(xs[1..], id);
      assert xs == [xs[0]] + xs[1..];
    }
  }

  lemma {:induction false} WithoutEndpointMembers(es: seq<Value>, id: Value)
    ensures forall e :: e in WithoutEndpoint(es, id) <==> e in es && Get(e, "source") != id && Get(e, "target") != id
  {
    if es != [] {
      WithoutEndpointMembers(es[1..], id);
      assert es == [es[0]] + es[1..];
    }
  }

  lemma {:induction false} WithoutValueMembers(xs: seq<Value>, v: Value)
    ensures forall x :: x in WithoutValue(xs, v) <==> x in xs && x != v
  {
    if xs != [] {
      WithoutValueMembers(xs[1..], v);
      assert xs == [xs[0]] + xs[1..];
    }
  }

  /** The filters keep order: filtering a concatenation filters each part. */
  lemma {:induction false} WithoutIdAppend(a: seq<Value>, b: seq<Value>, id: Value)
    ensures WithoutId(a + b, id) == WithoutId(a, id) + WithoutId(b, id)
  {
    if a == [] {
      assert a + b == b;
    } else {
      var h := if Get(a[0], "id") != id then [a[0]] else [];
      var ab := a + b;
      assert ab != [] && ab[0] == a[0] && ab[1..] == a[1..] + b;
      WithoutIdAppend(a[1..], b, id);
      calc {
        WithoutId(ab, id);
        h + WithoutId(a[1..] + b, id);
        h + (WithoutId(a[1..], id) + WithoutId(b, id));
        (h + WithoutId(a[1..], id)) + WithoutId(b, id);
        WithoutId(a, id) + WithoutId(b, id);
      }
    }
  }

  lemma {:induction false} WithoutEndpointAppend(a: seq<Value>, b: seq<Value>, id: Value)
    ensures WithoutEndpoint(a + b, id) == WithoutEndpoint(a, id) + WithoutEndpoint(b, id)
  {
    if a == [] {
      assert a + b == b;
    } else {
      var h := if Get(a[0], "source") != id && Get(a[0], "target") != id then [a[0]] else [];
      var ab := a + b;
      assert ab != [] && ab[0] == a[0] && ab[1..] == a[1..] + b;
      WithoutEndpointAppend(a[1..], b, id);
      calc {
        WithoutEndpoint(ab, id);
        h + WithoutEndpoint(a[1..] + b, id);
        h + (WithoutEndpoint(a[1..], id) + WithoutEndpoint(b, id));
        (h + WithoutEndpoint(a[1..], id)) + WithoutEndpoint(b, id);
        WithoutEndpoint(a, id) + WithoutEndpoint(b, id);
      }
    }
  }

  lemma {:induction false} WithoutValueAppend(a: seq<Value>, b: seq<Value>, v: Value)
    ensures WithoutValue(a + b, v) == WithoutValue(a, v) + WithoutValue(b, v)
  {
    if a == [] {
      assert a + b == b;
    } else {
      var h := if a[0] != v then [a[0]] else [];
      var ab := a + b;
      assert ab != [] && ab[0] == a[0] && ab[1..] == a[1..] + b;
      WithoutValueAppend(a[1..], b, v);
      calc {
        WithoutValue(ab, v);
        h + WithoutValue(a[1..] + b, v);
        h + (WithoutValue(a[1..], v) + WithoutValue(b, v));
        (h + WithoutValue(a[1..], v)) + WithoutValue(b, v);
        WithoutValue(a, v) + WithoutValue(b, v);
      }
    }
  }

  /** Nothing is dropped when no entry carries the id. */
  lemma {:induction false} WithoutAbsentId(xs: seq<Value>, id: Value)
    requires forall i :: 0 <= i < |xs| ==> Get(xs[i], "id") != id
    ensures WithoutId(xs, id) == xs
  {
    if xs != [] { WithoutAbsentId(xs[1..], id); }
  }

  lemma {:induction false} WithoutAbsentValue(xs: seq<Value>, v: Value)
    requires v !in xs
    ensures WithoutValue(xs, v) == xs
  {
    if xs != [] { WithoutAbsentValue(xs[1..], v); }
  }
}
