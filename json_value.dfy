/**
 * JSON values (the seven value kinds of section 3 of RFC 8259) as JavaScript
 * holds them after JSON.parse: an object is an ordered list of members whose
 * names are distinct, in first-insertion order.
 */
module JsonValue {
  import opened Wrappers

  datatype Json =
    | JObject(members: seq<(string, Json)>)
    | JArray(elements: seq<Json>)
    | JString(str: string)
    | JNumber(num: int)
    | JTrue
    | JFalse
    | JNull

  type Member = (string, Json)

  /** The member names, in order. */
  function Names(ms: seq<Member>): (r: seq<string>)
    ensures |r| == |ms|
    ensures forall i :: 0 <= i < |ms| ==> r[i] == ms[i].0
  {
    if ms == [] then [] else [ms[0].0] + Names(ms[1..])
  }

  predicate DistinctNames(ms: seq<Member>) {
    forall i, j :: 0 <= i < j < |ms| ==> ms[i].0 != ms[j].0
  }

  /** A value JavaScript can hold: every object has distinct member names. */
  predicate WellFormed(v: Json) {
    match v
    case JObject(ms) =>
      DistinctNames(ms) && forall i :: 0 <= i < |ms| ==> assert ms[i] in ms; WellFormed(ms[i].1)
    case JArray(es) => forall i :: 0 <= i < |es| ==> WellFormed(es[i])
    case _ => true
  }

  /**
   * `obj[k] = x` on a JavaScript object: an existing member keeps its place
   * and takes the new value, a new name is appended.
   */
  function Assign(ms: seq<Member>, k: string, x: Json): (r: seq<Member>)
    ensures k !in Names(ms) ==> r == ms + [(k, x)]
    ensures k in Names(ms) ==> |r| == |ms|
  {
    if ms == [] then [(k, x)]
    else if ms[0].0 == k then [(k, x)] + ms[1..]
    else [ms[0]] + Assign(ms[1..], k, x)
  }

  /** Assignment keeps the names in first-insertion order and appends a new name. */
  lemma {:induction false} AssignNames(ms: seq<Member>, k: string, x: Json)
    ensures Names(Assign(ms, k, x)) == if k in Names(ms) then Names(ms) else Names(ms) + [k]
  {
    if ms != [] {
      assert Names(ms) == [ms[0].0] + Names(ms[1..]);
      if ms[0].0 != k {
        AssignNames(ms[1..], k, x);
        assert Assign(ms, k, x) == [ms[0]] + Assign(ms[1..], k, x);
        assert Names(Assign(ms, k, x)) == [ms[0].0] + Names(Assign(ms[1..], k, x));
      } else {
        assert Assign(ms, k, x) == [(k, x)] + ms[1..];
      }
    }
  }

  /** Every member after an assignment is an old member or the assigned pair. */
  lemma {:induction false} AssignFrom(ms: seq<Member>, k: string, x: Json)
    ensures forall i :: 0 <= i < |Assign(ms, k, x)| ==>
      Assign(ms, k, x)[i] in ms || Assign(ms, k, x)[i] == (k, x)
  {
    if ms != [] && ms[0].0 != k {
      AssignFrom(ms[1..], k, x);
      var r := Assign(ms, k, x);
      assert r == [ms[0]] + Assign(ms[1..], k, x);
      forall i | 1 <= i < |r| ensures r[i] in ms || r[i] == (k, x) {
        assert r[i] == Assign(ms[1..], k, x)[i - 1];
      }
    }
  }

  /** Assignment keeps member names distinct. */
  lemma {:induction false} AssignDistinct(ms: seq<Member>, k: string, x: Json)
    requires DistinctNames(ms)
    ensures DistinctNames(Assign(ms, k, x))
  {
    AssignNames(ms, k, x);
    var r := Assign(ms, k, x);
    forall i, j | 0 <= i < j < |r| ensures r[i].0 != r[j].0 {
      assert r[i].0 == Names(r)[i] && r[j].0 == Names(r)[j];
      if j < |ms| {
        assert Names(ms)[i] == ms[i].0 && Names(ms)[j] == ms[j].0;
      }
    }
  }

  /** The object built by assigning the pairs in order: a later pair wins over an earlier one of the same name. */
  function Collapse(ps: seq<Member>): seq<Member>
  {
    if ps == [] then [] else Assign(Collapse(ps[..|ps| - 1]), ps[|ps| - 1].0, ps[|ps| - 1].1)
  }

  /** The collapsed object has distinct names, and each of its members is one of the pairs. */
  lemma {:induction false} CollapseMembers(ps: seq<Member>)
    ensures DistinctNames(Collapse(ps))
    ensures forall i :: 0 <= i < |Collapse(ps)| ==> Collapse(ps)[i] in ps
  {
    if ps != [] {
      var init, last := ps[..|ps| - 1], ps[|ps| - 1];
      CollapseMembers(init);
      AssignDistinct(Collapse(init), last.0, last.1);
      AssignFrom(Collapse(init), last.0, last.1);
      var r := Collapse(ps);
      forall i | 0 <= i < |r| ensures r[i] in ps {
        if r[i] != last {
          assert r[i] in init;
        }
      }
    }
  }

  /** `obj[k]` on a JavaScript object: the member's value, or `undefined`. */
  function Lookup(ms: seq<Member>, k: string): Option<Json>
  {
    if ms == [] then None
    else if ms[0].0 == k then Some(ms[0].1)
    else Lookup(ms[1..], k)
  }

  /** A name reads as defined exactly when it is one of the member names, and then gives that member's value. */
  lemma {:induction false} LookupFinds(ms: seq<Member>, k: string)
    ensures Lookup(ms, k).Some? <==> k in Names(ms)
    ensures Lookup(ms, k).Some? ==> (k, Lookup(ms, k).value) in ms
  {
    if ms != [] {
      LookupFinds(ms[1..], k);
      assert Names(ms) == [ms[0].0] + Names(ms[1..]);
    }
  }

  /** With distinct names, each member's name reads as that member's value. */
  lemma {:induction false} LookupDistinct(ms: seq<Member>, i: nat)
    requires DistinctNames(ms) && i < |ms|
    ensures Lookup(ms, ms[i].0) == Some(ms[i].1)
  {
    if i > 0 {
      assert ms[0].0 != ms[i].0;
      assert ms[1..][i - 1] == ms[i];
      LookupDistinct(ms[1..], i - 1);
    }
  }

  /** After `obj[k] = x`, reading `obj[k]` gives `x` and every other name reads as before. */
  lemma {:induction false} AssignThenLookup(ms: seq<Member>, k: string, x: Json, k': string)
    ensures Lookup(Assign(ms, k, x), k') == if k' == k then Some(x) else Lookup(ms, k')
  {
    if ms != [] && ms[0].0 != k {
      AssignThenLookup(ms[1..], k, x, k');
    }
  }

  /** Dropping the last of distinctly named pairs keeps them distinct and frees the last name. */
  lemma {:induction false} DistinctInit(ps: seq<Member>)
    requires ps != [] && DistinctNames(ps)
    ensures DistinctNames(ps[..|ps| - 1])
    ensures ps[|ps| - 1].0 !in Names(ps[..|ps| - 1])
  {
    var init := ps[..|ps| - 1];
    forall i | 0 <= i < |init| ensures Names(init)[i] != ps[|ps| - 1].0 {
      assert init[i] == ps[i];
    }
  }

  /** A pair with a new name, after pairs that collapse to themselves. */
  lemma {:induction false} CollapseStep(init: seq<Member>, last: Member)
    requires Collapse(init) == init && last.0 !in Names(init)
    ensures Collapse(init + [last]) == init + [last]
  {
    assert (init + [last])[..|init|] == init;
  }

  /** Assigning pairs whose names are already distinct rebuilds exactly those pairs, in order. */
  lemma {:induction false} CollapseDistinct(ps: seq<Member>)
    requires DistinctNames(ps)
    ensures Collapse(ps) == ps
  {
    if ps != [] {
      var init, last := ps[..|ps| - 1], ps[|ps| - 1];
      DistinctInit(ps);
      CollapseDistinct(init);
      CollapseStep(init, last);
      assert init + [last] == ps;
    }
  }

  /** With a repeated name, the later pair's value wins. */
  lemma {:induction false} CollapseLastWins(ps: seq<Member>, k: string, x: Json)
    ensures Lookup(Collapse(ps + [(k, x)]), k) == Some(x)
  {
    assert (ps + [(k, x)])[..|ps|] == ps;
    AssignThenLookup(Collapse(ps), k, x, k);
  }
}
