/**
 * The editable tree: a JSON value shown as nested rows. Every row carries
 * an optional key label (a member name or an array index; the root has
 * none), a level, the index of its type in the type table, the text of
 * its value, and, for an object or an array, its child rows. In the page
 * the child rows are followed by an "add" row and an "end" row, which is
 * why the page counts children as the number of child nodes minus two;
 * here the children are just the sequence.
 */
module TreeModel {
  import opened Wrappers
  import opened Decimal
  import opened JsonValue
  import opened JsonText

  // ---------------------------------------------------------------------
  // The type table and the classification of values
  // ---------------------------------------------------------------------

  /**
   * One row of the type table: the name in the type list, the text a fresh
   * value of the type starts with, whether it has children, and whether
   * its value text can be typed in.
   */
  datatype ElementType = ElementType(name: string, defaultValue: string, isCollection: bool, editable: bool)

  const ElementTypes: seq<ElementType> := [
    ElementType("object", "{}", true, false),
    ElementType("array", "[]", true, false),
    ElementType("string", "\"\"", false, true),
    ElementType("number", "0", false, true),
    ElementType("\"true\"", "true", false, false),
    ElementType("\"false\"", "false", false, false),
    ElementType("\"null\"", "null", false, false)
  ]

  /** The row of the type table that describes a value. */
  function TypeIndex(v: Json): (i: nat)
    ensures i < |ElementTypes|
  {
    match v
    case JString(_) => 2
    case JNumber(_) => 3
    case JTrue => 4
    case JFalse => 5
    case JNull => 6
    case JArray(_) => 1
    case JObject(_) => 0
  }

  predicate IsCollection(t: nat) {
    t < |ElementTypes| && ElementTypes[t].isCollection
  }

  /** The value each type's default text stands for. */
  function DefaultValue(t: nat): Json
    requires t < |ElementTypes|
  {
    [JObject([]), JArray([]), JString(""), JNumber(0), JTrue, JFalse, JNull][t]
  }

  /** Each default text is JSON text for a value of its own type, and only objects and arrays have children. */
  lemma {:induction false} TypeTable(t: nat)
    requires t < |ElementTypes|
    ensures Parse(ElementTypes[t].defaultValue) == Some(DefaultValue(t))
    ensures TypeIndex(DefaultValue(t)) == t
    ensures ElementTypes[t].isCollection <==> t < 2
    ensures ElementTypes[t].editable <==> t == 2 || t == 3
  {
    ParseStringify(DefaultValue(t));
    assert Escape("") == "";
    assert Stringify(DefaultValue(t)) == ElementTypes[t].defaultValue;
  }

  /** The classification sends every value to the row of its own kind. */
  lemma {:induction false} TypeIndexKinds(v: Json)
    ensures IsCollection(TypeIndex(v)) <==> v.JObject? || v.JArray?
    ensures TypeIndex(v) == 0 <==> v.JObject?
    ensures TypeIndex(v) == 1 <==> v.JArray?
    ensures !IsCollection(TypeIndex(v)) ==> TypeIndex(v) == TypeIndex(DefaultValue(TypeIndex(v)))
  {
  }

  // ---------------------------------------------------------------------
  // Summary texts
  // ---------------------------------------------------------------------

  /** The text of a hidden object with `length` members. */
  function ObjectText(length: nat): string {
    if length == 0 then "{}"
    else if length == 1 then "{1 member}"
    else "{" + NatText(length) + " members}"
  }

  /** The text of a hidden array with `length` elements. */
  function ArrayText(length: nat): string {
    if length == 0 then "[]"
    else if length == 1 then "[1 element]"
    else "[" + NatText(length) + " elements]"
  }

  function Summary(t: nat, length: nat): string {
    if t == 0 then ObjectText(length) else ArrayText(length)
  }

  /** The count a summary text shows, read back from the text. */
  function ObjectCount(s: string): nat {
    if s == "{}" then 0
    else if s == "{1 member}" then 1
    else if |s| >= 10 then
      var d := s[1..|s| - 9];
      if forall i :: 0 <= i < |d| ==> IsDigit(d[i]) then DigitsValue(d) else 0
    else 0
  }

  function ArrayCount(s: string): nat {
    if s == "[]" then 0
    else if s == "[1 element]" then 1
    else if |s| >= 11 then
      var d := s[1..|s| - 10];
      if forall i :: 0 <= i < |d| ==> IsDigit(d[i]) then DigitsValue(d) else 0
    else 0
  }

  /** A summary text shows the child count it was made from. */
  lemma {:induction false} ObjectCountRead(n: nat)
    ensures ObjectCount(ObjectText(n)) == n
  {
    if n >= 2 {
      var t := NatText(n);
      var s := ObjectText(n);
      assert s == "{" + t + " members}";
      assert |s| > |"{1 member}"|;
      assert s[1..|s| - 9] == t;
      NatTextValue(n);
    }
  }

  lemma {:induction false} ArrayCountRead(n: nat)
    ensures ArrayCount(ArrayText(n)) == n
  {
    if n >= 2 {
      var t := NatText(n);
      var s := ArrayText(n);
      assert s == "[" + t + " elements]";
      assert |s| > |"[1 element]"|;
      assert s[1..|s| - 10] == t;
      NatTextValue(n);
    }
  }

  /** Different child counts give different summary texts. */
  lemma {:induction false} SummaryInjective(t: nat, a: nat, b: nat)
    requires Summary(t, a) == Summary(t, b)
    ensures a == b
  {
    if t == 0 {
      ObjectCountRead(a);
      ObjectCountRead(b);
    } else {
      ArrayCountRead(a);
      ArrayCountRead(b);
    }
  }

  // ---------------------------------------------------------------------
  // Keys and rows
  // ---------------------------------------------------------------------

  /** A key label: an object member name or an array index. */
  datatype Key = Name(name: string) | Index(index: int)

  /** The value a key label's text is read as. */
  function KeyJson(k: Key): Json {
    match k
    case Name(s) => JString(s)
    case Index(i) => JNumber(i)
  }

  /** The text of a key label without its trailing ": ". */
  function KeyText(k: Key): string {
    Stringify(KeyJson(k))
  }

  /** A label's text reads back as its key. */
  lemma {:induction false} KeyTextRead(k: Key)
    ensures Parse(KeyText(k)) == Some(KeyJson(k))
  {
    ParseStringify(KeyJson(k));
  }

  /** The property name `obj[key]` uses: JavaScript turns a number or `undefined` into text. */
  function PropName(key: Option<Key>): string {
    match key
    case None => "undefined"
    case Some(Name(s)) => s
    case Some(Index(i)) => IntText(i)
  }

  datatype Node = Node(
    key: Option<Key>,
    level: nat,
    typeIndex: nat,
    text: string,
    hidden: bool,
    children: seq<Node>)

  // ---------------------------------------------------------------------
  // Building rows from a value
  // ---------------------------------------------------------------------

  /** The text of a container: the summary when it starts hidden, otherwise its opening bracket. */
  function Caption(t: nat, length: nat, level: nat): string {
    if level > 0 then Summary(t, length) else if t == 0 then "{" else "["
  }

  /**
   * The rows for `v` under the label `key` at `level`: a container's
   * children are built one level deeper, and every container below the
   * root starts hidden.
   */
  function From(v: Json, key: Option<Key>, level: nat): (n: Node)
    ensures n.key == key && n.level == level && n.typeIndex == TypeIndex(v)
    decreases v, 1
  {
    match v
    case JObject(ms) => Node(key, level, 0, Caption(0, |ms|, level), level > 0, FromMembers(ms, level + 1))
    case JArray(es) => Node(key, level, 1, Caption(1, |es|, level), level > 0, FromElements(es, level + 1))
    case _ => Node(key, level, TypeIndex(v), Stringify(v), false, [])
  }

  /** One row per member, in the members' order, labelled with the member's name. */
  function FromMembers(ms: seq<Member>, level: nat): (cs: seq<Node>)
    ensures |cs| == |ms|
    decreases ms, 0
  {
    if ms == [] then []
    else
      var last := ms[|ms| - 1];
      assert last in ms && last.1 < last;
      FromMembers(ms[..|ms| - 1], level) + [From(last.1, Some(Name(last.0)), level)]
  }

  /** One row per element, in order, labelled with its position. */
  function FromElements(es: seq<Json>, level: nat): (cs: seq<Node>)
    ensures |cs| == |es|
    decreases es, 0
  {
    if es == [] then []
    else FromElements(es[..|es| - 1], level) + [From(es[|es| - 1], Some(Index(|es| - 1)), level)]
  }

  // ---------------------------------------------------------------------
  // Reading a value back from rows
  // ---------------------------------------------------------------------

  /**
   * The value the rows stand for, or None where reading them throws (a
   * type index outside the table, or a scalar text that is not JSON).
   */
  function Value(n: Node): Option<Json>
    decreases n, 1
  {
    if n.typeIndex >= |ElementTypes| then None
    else if ElementTypes[n.typeIndex].isCollection then
      if n.typeIndex == 0 then
        var ms :- MembersOf(n.children);
        Some(JObject(ms))
      else
        var es :- ElementsOf(n.children);
        Some(JArray(es))
    else Parse(n.text)
  }

  /** An object read child by child: each child's value is assigned under its key. */
  function MembersOf(cs: seq<Node>): Option<seq<Member>>
    decreases cs, 0
  {
    if cs == [] then Some([])
    else
      var init :- MembersOf(cs[..|cs| - 1]);
      var last := cs[|cs| - 1];
      var x :- Value(last);
      Some(Assign(init, PropName(last.key), x))
  }

  /** An array read child by child, by position; the labels play no part. */
  function ElementsOf(cs: seq<Node>): (r: Option<seq<Json>>)
    ensures r.Some? ==> |r.value| == |cs|
    decreases cs, 0
  {
    if cs == [] then Some([])
    else
      var init :- ElementsOf(cs[..|cs| - 1]);
      var x :- Value(cs[|cs| - 1]);
      Some(init + [x])
  }

  /** A child that cannot be read makes every longer run of children unreadable. */
  lemma {:induction false} MembersFailure(cs: seq<Node>, j: nat)
    requires j <= |cs| && MembersOf(cs[..j]).None?
    ensures MembersOf(cs).None?
    decreases |cs| - j
  {
    if j < |cs| {
      assert cs[..j + 1][..j] == cs[..j];
      MembersFailure(cs, j + 1);
    } else {
      assert cs[..j] == cs;
    }
  }

  lemma {:induction false} ElementsFailure(cs: seq<Node>, j: nat)
    requires j <= |cs| && ElementsOf(cs[..j]).None?
    ensures ElementsOf(cs).None?
    decreases |cs| - j
  {
    if j < |cs| {
      assert cs[..j + 1][..j] == cs[..j];
      ElementsFailure(cs, j + 1);
    } else {
      assert cs[..j] == cs;
    }
  }

  /**
   * Reads the rows back into a key and a value the way the page does; a
   * scalar's text is parsed, a container's children are read by the loops
   * below. None is the exception the page would throw.
   */
  method ToValue(n: Node) returns (key: Option<Key>, value: Option<Json>)
    ensures key == n.key && value == Value(n)
    decreases n, 1
  {
    key := n.key;
    if n.typeIndex >= |ElementTypes| {
      value := None;
    } else if ElementTypes[n.typeIndex].isCollection {
      if n.typeIndex == 0 {
        var ms := ReadMembers(n.children);
        value := if ms.Some? then Some(JObject(ms.value)) else None;
      } else {
        var es := ReadElements(n.children);
        value := if es.Some? then Some(JArray(es.value)) else None;
      }
    } else {
      value := Parse(n.text);
    }
  }

  /** The object loop: each child's value is assigned under the child's key, in order. */
  method ReadMembers(children: seq<Node>) returns (r: Option<seq<Member>>)
    ensures r == MembersOf(children)
    decreases children, 0
  {
    var ms: seq<Member> := [];
    var index := 0;
    var length := |children|;
    while index < length
      invariant 0 <= index <= length
      invariant MembersOf(children[..index]) == Some(ms)
    {
      var k, x := ToValue(children[index]);
      assert children[..index + 1][..index] == children[..index];
      if x.None? {
        MembersFailure(children, index + 1);
        return None;
      }
      ms := Assign(ms, PropName(k), x.value);
      index := index + 1;
    }
    assert children[..index] == children;
    r := Some(ms);
  }

  /** The array loop: a fresh array of the child count, filled by position. */
  method ReadElements(children: seq<Node>) returns (r: Option<seq<Json>>)
    ensures r == ElementsOf(children)
    decreases children, 0
  {
    var index := 0;
    var length := |children|;
    var a := new Json[length](_ => JNull);
    while index < length
      invariant 0 <= index <= length
      invariant ElementsOf(children[..index]) == Some(a[..index])
    {
      var k, x := ToValue(children[index]);
      assert children[..index + 1][..index] == children[..index];
      if x.None? {
        ElementsFailure(children, index + 1);
        return None;
      }
      a[index] := x.value;
      assert a[..index + 1] == a[..index] + [x.value];
      index := index + 1;
    }
    assert children[..index] == children;
    assert a[..] == a[..index];
    r := Some(a[..]);
  }

  // ---------------------------------------------------------------------
  // The round trip
  // ---------------------------------------------------------------------

  lemma {:induction false} FromObjectValue(ms: seq<Member>, key: Option<Key>, level: nat)
    ensures Value(From(JObject(ms), key, level)) ==
      if MembersOf(FromMembers(ms, level + 1)).Some? then Some(JObject(MembersOf(FromMembers(ms, level + 1)).value)) else None
  {
  }

  lemma {:induction false} FromArrayValue(es: seq<Json>, key: Option<Key>, level: nat)
    ensures Value(From(JArray(es), key, level)) ==
      if ElementsOf(FromElements(es, level + 1)).Some? then Some(JArray(ElementsOf(FromElements(es, level + 1)).value)) else None
  {
  }

  lemma {:induction false} FromScalarValue(v: Json, key: Option<Key>, level: nat)
    requires !v.JObject? && !v.JArray?
    ensures Value(From(v, key, level)) == Parse(Stringify(v))
  {
  }

  /** Reading back the rows built for a value gives that value. */
  lemma {:induction false} ValueFrom(v: Json, key: Option<Key>, level: nat)
    requires WellFormed(v)
    ensures Value(From(v, key, level)) == Some(v)
    decreases v, 1
  {
    match v
    case JObject(ms) =>
      FromObjectValue(ms, key, level);
      MembersFrom(ms, level + 1);
      CollapseDistinct(ms);
    case JArray(es) =>
      FromArrayValue(es, key, level);
      ElementsFrom(es, level + 1);
    case _ =>
      FromScalarValue(v, key, level);
      ParseStringify(v);
  }

  /** Object members assigned back in order rebuild the collapsed pairs. */
  lemma {:induction false} MembersFrom(ms: seq<Member>, level: nat)
    requires forall i :: 0 <= i < |ms| ==> WellFormed(ms[i].1)
    ensures MembersOf(FromMembers(ms, level)) == Some(Collapse(ms))
    decreases ms, 0
  {
    if ms != [] {
      var init, last := ms[..|ms| - 1], ms[|ms| - 1];
      assert last in ms && last.1 < last;
      assert WellFormed(last.1);
      MembersFrom(init, level);
      ValueFrom(last.1, Some(Name(last.0)), level);
      var cs := FromMembers(ms, level);
      assert cs[..|cs| - 1] == FromMembers(init, level);
    }
  }

  lemma {:induction false} ElementsFrom(es: seq<Json>, level: nat)
    requires forall i :: 0 <= i < |es| ==> WellFormed(es[i])
    ensures ElementsOf(FromElements(es, level)) == Some(es)
    decreases es, 0
  {
    if es != [] {
      var init := es[..|es| - 1];
      assert WellFormed(es[|es| - 1]);
      ElementsFrom(init, level);
      ValueFrom(es[|es| - 1], Some(Index(|es| - 1)), level);
      var cs := FromElements(es, level);
      assert cs[..|cs| - 1] == FromElements(init, level);
      assert init + [es[|es| - 1]] == es;
    }
  }

  /** The page's own loop reads back the key and the value the rows were built from. */
  method RoundTrip(v: Json, key: Option<Key>, level: nat) returns (k: Option<Key>, r: Option<Json>)
    requires WellFormed(v)
    ensures k == key && r == Some(v)
  {
    k, r := ToValue(From(v, key, level));
    ValueFrom(v, key, level);
  }

  // ---------------------------------------------------------------------
  // Well-formed rows
  // ---------------------------------------------------------------------

  /** An object's children are labelled with names and an array's children with indexes. */
  predicate KeyFits(t: nat, key: Option<Key>) {
    (t == 0 ==> key.Some? && key.value.Name?) && (t == 1 ==> key.Some? && key.value.Index?)
  }

  /** A scalar's text is JSON text for a value of the row's type. */
  predicate ScalarOk(text: string, t: nat) {
    Parse(text).Some? && TypeIndex(Parse(text).value) == t
  }

  /**
   * The shape the page keeps: a type index inside the table; a container's
   * children one level deeper and labelled the container's way; a scalar
   * with no children and a readable text of its own type.
   */
  predicate WfNode(n: Node)
    decreases n
  {
    n.typeIndex < |ElementTypes| &&
    if ElementTypes[n.typeIndex].isCollection then
      forall i :: 0 <= i < |n.children| ==>
        n.children[i].level == n.level + 1 && KeyFits(n.typeIndex, n.children[i].key) && WfNode(n.children[i])
    else n.children == [] && ScalarOk(n.text, n.typeIndex)
  }

  /** A whole tree: the root has no label and level 0. */
  predicate Wf(root: Node) {
    root.key.None? && root.level == 0 && WfNode(root)
  }

  /** The rows built for any value are well formed. */
  lemma {:induction false} WfFrom(v: Json, key: Option<Key>, level: nat)
    ensures WfNode(From(v, key, level))
    decreases v, 1
  {
    match v
    case JObject(ms) => WfMembers(ms, level + 1);
    case JArray(es) => WfElements(es, level + 1);
    case _ => ParseStringify(v);
  }

  lemma {:induction false} WfMembers(ms: seq<Member>, level: nat)
    ensures forall i :: 0 <= i < |ms| ==>
      var c := FromMembers(ms, level)[i]; c.level == level && KeyFits(0, c.key) && WfNode(c)
    decreases ms, 0
  {
    if ms != [] {
      var init, last := ms[..|ms| - 1], ms[|ms| - 1];
      assert last in ms && last.1 < last;
      WfMembers(init, level);
      WfFrom(last.1, Some(Name(last.0)), level);
      var cs := FromMembers(ms, level);
      forall i | 0 <= i < |init| ensures cs[i] == FromMembers(init, level)[i] { }
    }
  }

  lemma {:induction false} WfElements(es: seq<Json>, level: nat)
    ensures forall i :: 0 <= i < |es| ==>
      var c := FromElements(es, level)[i]; c.level == level && KeyFits(1, c.key) && WfNode(c)
    decreases es, 0
  {
    if es != [] {
      var init := es[..|es| - 1];
      WfElements(init, level);
      WfFrom(es[|es| - 1], Some(Index(|es| - 1)), level);
      var cs := FromElements(es, level);
      forall i | 0 <= i < |init| ensures cs[i] == FromElements(init, level)[i] { }
    }
  }

  /** Well-formed rows can always be read back, as a value of the type they show. */
  lemma {:induction false} WfValue(n: Node)
    requires WfNode(n)
    ensures Value(n).Some? && TypeIndex(Value(n).value) == n.typeIndex
    decreases n, 1
  {
    if ElementTypes[n.typeIndex].isCollection {
      if n.typeIndex == 0 {
        WfMembersValue(n.children);
      } else {
        WfElementsValue(n.children);
      }
    }
  }

  lemma {:induction false} WfMembersValue(cs: seq<Node>)
    requires forall i :: 0 <= i < |cs| ==> WfNode(cs[i])
    ensures MembersOf(cs).Some?
    decreases cs, 0
  {
    if cs != [] {
      WfMembersValue(cs[..|cs| - 1]);
      WfValue(cs[|cs| - 1]);
    }
  }

  lemma {:induction false} WfElementsValue(cs: seq<Node>)
    requires forall i :: 0 <= i < |cs| ==> WfNode(cs[i])
    ensures ElementsOf(cs).Some?
    decreases cs, 0
  {
    if cs != [] {
      WfElementsValue(cs[..|cs| - 1]);
      WfValue(cs[|cs| - 1]);
    }
  }

  // ---------------------------------------------------------------------
  // Positions in the tree
  // ---------------------------------------------------------------------

  /** A path of child positions from the root to a row. */
  predicate ValidPath(n: Node, p: seq<nat>)
    decreases p
  {
    p == [] || (p[0] < |n.children| && ValidPath(n.children[p[0]], p[1..]))
  }

  function At(n: Node, p: seq<nat>): Node
    requires ValidPath(n, p)
    decreases p
  {
    if p == [] then n else At(n.children[p[0]], p[1..])
  }

  /** The tree with the row at `p` replaced by `m`; every row above it keeps its own fields. */
  function Put(n: Node, p: seq<nat>, m: Node): (r: Node)
    requires ValidPath(n, p)
    ensures p != [] ==> r.key == n.key && r.level == n.level && r.typeIndex == n.typeIndex && |r.children| == |n.children|
    decreases p
  {
    if p == [] then m
    else n.(children := n.children[p[0] := Put(n.children[p[0]], p[1..], m)])
  }

  /** What is put at a path is found there afterwards. */
  lemma {:induction false} PutAt(n: Node, p: seq<nat>, m: Node)
    requires ValidPath(n, p)
    ensures ValidPath(Put(n, p, m), p) && At(Put(n, p, m), p) == m
    decreases p
  {
    if p != [] {
      PutAt(n.children[p[0]], p[1..], m);
    }
  }

  /** Both keys absent, or both names, or both indexes. */
  predicate SameKind(a: Option<Key>, b: Option<Key>) {
    a.None? == b.None? && (a.Some? && b.Some? ==> a.value.Name? == b.value.Name?)
  }

  /** Putting well-formed rows of the same level and label kind keeps the tree well formed. */
  lemma {:induction false} PutWf(n: Node, p: seq<nat>, m: Node)
    requires WfNode(n) && ValidPath(n, p) && WfNode(m)
    requires m.level == At(n, p).level && SameKind(m.key, At(n, p).key)
    ensures WfNode(Put(n, p, m))
    decreases p
  {
    if p != [] {
      var c := n.children[p[0]];
      PutWf(c, p[1..], m);
      var c' := Put(c, p[1..], m);
      assert c'.level == c.level && SameKind(c'.key, c.key);
      var r := Put(n, p, m);
      forall i | 0 <= i < |r.children|
        ensures r.children[i].level == r.level + 1 && KeyFits(r.typeIndex, r.children[i].key) && WfNode(r.children[i])
      {
        if i == p[0] {
          assert r.children[i] == c';
        } else {
          assert r.children[i] == n.children[i];
        }
      }
    }
  }

  /** The same for a whole tree: what is put keeps its level and label kind, so the root stays unlabelled at level 0. */
  lemma {:induction false} PutWfRoot(root: Node, p: seq<nat>, m: Node)
    requires Wf(root) && ValidPath(root, p) && WfNode(m)
    requires m.level == At(root, p).level && SameKind(m.key, At(root, p).key)
    ensures Wf(Put(root, p, m))
  {
    PutWf(root, p, m);
  }

  // ---------------------------------------------------------------------
  // Relabelling an array's children
  // ---------------------------------------------------------------------

  /** The children of an array, labelled 0, 1, ... in order; otherwise the children as they are. */
  function Relabel(parent: Node): Node {
    if parent.typeIndex == 1 then
      parent.(children := seq(|parent.children|, i requires 0 <= i < |parent.children| =>
        parent.children[i].(key := Some(Index(i)))))
    else parent
  }

  /** The relabelling loop: each child of an array gets its position as its label. */
  method ResetIndexes(parent: Node) returns (r: Node)
    ensures r == Relabel(parent)
  {
    if parent.typeIndex == 1 {
      var children := parent.children;
      var index := 0;
      var length := |children|;
      while index < length
        invariant 0 <= index <= length && |children| == length
        invariant forall j :: 0 <= j < index ==> children[j] == parent.children[j].(key := Some(Index(j)))
        invariant forall j :: index <= j < length ==> children[j] == parent.children[j]
      {
        children := children[index := children[index].(key := Some(Index(index)))];
        index := index + 1;
      }
      r := parent.(children := children);
    } else {
      r := parent;
    }
  }

  /** A label plays no part in reading a row's own value. */
  lemma {:induction false} ValueIgnoresKey(c: Node, key: Option<Key>)
    ensures Value(c.(key := key)) == Value(c)
  {
    assert c.(key := key).children == c.children;
  }

  /** Rows read pointwise alike make arrays alike. */
  lemma {:induction false} ElementsPointwise(a: seq<Node>, b: seq<Node>)
    requires |a| == |b| && forall i :: 0 <= i < |a| ==> Value(a[i]) == Value(b[i])
    ensures ElementsOf(a) == ElementsOf(b)
    decreases |a|
  {
    if a != [] {
      ElementsPointwise(a[..|a| - 1], b[..|b| - 1]);
    }
  }

  /**
   * Relabelling changes no value: an array is read by position, and an
   * object is left alone. Labels after it are the positions 0 .. n-1.
   */
  lemma {:induction false} RelabelValue(parent: Node)
    ensures Value(Relabel(parent)) == Value(parent)
    ensures parent.typeIndex == 1 ==> forall i :: 0 <= i < |parent.children| ==>
      Relabel(parent).children[i].key == Some(Index(i))
  {
    if parent.typeIndex == 1 {
      var r := Relabel(parent);
      forall i | 0 <= i < |parent.children| ensures Value(r.children[i]) == Value(parent.children[i]) {
        ValueIgnoresKey(parent.children[i], Some(Index(i)));
      }
      ElementsPointwise(r.children, parent.children);
    }
  }

  /** Relabelling keeps a well-formed container well formed. */
  lemma {:induction false} RelabelWf(parent: Node)
    requires WfNode(parent)
    ensures WfNode(Relabel(parent))
  {
  }

  // ---------------------------------------------------------------------
  // Inserting, appending and removing children
  // ---------------------------------------------------------------------

  /** `c` placed immediately before the child at `i`, as insertBefore does. */
  function InsertAt(cs: seq<Node>, i: nat, c: Node): (r: seq<Node>)
    requires i <= |cs|
    ensures |r| == |cs| + 1 && r[i] == c
    ensures forall j :: 0 <= j < i ==> r[j] == cs[j]
    ensures forall j :: i < j < |r| ==> r[j] == cs[j - 1]
  {
    cs[..i] + [c] + cs[i..]
  }

  /** The child at `i` taken out, as remove does. */
  function RemoveAt(cs: seq<Node>, i: nat): (r: seq<Node>)
    requires i < |cs|
    ensures |r| == |cs| - 1
    ensures forall j :: 0 <= j < i ==> r[j] == cs[j]
    ensures forall j :: i <= j < |r| ==> r[j] == cs[j + 1]
  {
    cs[..i] + cs[i + 1..]
  }

  function JoinElements(a: Option<seq<Json>>, b: Option<seq<Json>>): Option<seq<Json>> {
    if a.Some? && b.Some? then Some(a.value + b.value) else None
  }

  /** Reading consecutive runs of children one after the other. */
  lemma {:induction false} ElementsConcat(a: seq<Node>, b: seq<Node>)
    ensures ElementsOf(a + b) == JoinElements(ElementsOf(a), ElementsOf(b))
    decreases |b|
  {
    if b == [] {
      assert a + b == a;
      if ElementsOf(a).Some? {
        assert ElementsOf(a).value + [] == ElementsOf(a).value;
      }
    } else {
      var b', last := b[..|b| - 1], b[|b| - 1];
      ElementsConcat(a, b');
      assert (a + b)[..|a + b| - 1] == a + b';
      assert (a + b)[|a + b| - 1] == last;
      var x, y := ElementsOf(a), ElementsOf(b');
      if x.Some? && y.Some? && Value(last).Some? {
        assert ElementsOf(a + b').value == x.value + y.value;
        assert x.value + (y.value + [Value(last).value]) == x.value + y.value + [Value(last).value];
      }
    }
  }

  /** An array's children split at `i` read as the array's value split at `i`. */
  lemma {:induction false} ElementsSplit(cs: seq<Node>, i: nat, es: seq<Json>)
    requires ElementsOf(cs) == Some(es) && i <= |cs|
    ensures ElementsOf(cs[..i]) == Some(es[..i]) && ElementsOf(cs[i..]) == Some(es[i..])
  {
    assert cs == cs[..i] + cs[i..];
    ElementsConcat(cs[..i], cs[i..]);
    var a, b := ElementsOf(cs[..i]).value, ElementsOf(cs[i..]).value;
    assert a + b == es && |a| == i;
    assert a == es[..i] && b == es[i..];
  }

  /** Inserting a row before position `i` of an array inserts its value at position `i`, and nothing else moves out of order. */
  lemma {:induction false} InsertElements(cs: seq<Node>, i: nat, c: Node, es: seq<Json>, x: Json)
    requires ElementsOf(cs) == Some(es) && i <= |cs| && Value(c) == Some(x)
    ensures ElementsOf(InsertAt(cs, i, c)) == Some(es[..i] + [x] + es[i..])
  {
    ElementsSplit(cs, i, es);
    AppendElements(cs[..i], c, es[..i], x);
    ElementsConcat(cs[..i] + [c], cs[i..]);
  }

  /** Appending a row to an array appends its value. */
  lemma {:induction false} AppendElements(cs: seq<Node>, c: Node, es: seq<Json>, x: Json)
    requires ElementsOf(cs) == Some(es) && Value(c) == Some(x)
    ensures ElementsOf(cs + [c]) == Some(es + [x])
  {
    assert (cs + [c])[..|cs|] == cs;
  }

  /** Removing the row at `i` of an array removes the element at `i`. */
  lemma {:induction false} RemoveElements(cs: seq<Node>, i: nat, es: seq<Json>)
    requires ElementsOf(cs) == Some(es) && i < |cs|
    ensures ElementsOf(RemoveAt(cs, i)) == Some(es[..i] + es[i + 1..])
  {
    ElementsSplit(cs, i, es);
    ElementsSplit(cs[i..], 1, es[i..]);
    assert cs[i..][1..] == cs[i + 1..] && es[i..][1..] == es[i + 1..];
    ElementsConcat(cs[..i], cs[i + 1..]);
  }

  /** The (name, value) pair of every child, in order, before any collapsing of repeated names. */
  function Pairs(cs: seq<Node>): (r: Option<seq<Member>>)
    ensures r.Some? ==> |r.value| == |cs|
  {
    if cs == [] then Some([])
    else
      var init :- Pairs(cs[..|cs| - 1]);
      var last := cs[|cs| - 1];
      var x :- Value(last);
      Some(init + [(PropName(last.key), x)])
  }

  /** An object read child by child is the collapse of its children's pairs: for a repeated name the later child's value wins. */
  lemma {:induction false} MembersArePairs(cs: seq<Node>)
    ensures MembersOf(cs) == if Pairs(cs).Some? then Some(Collapse(Pairs(cs).value)) else None
    decreases |cs|
  {
    if cs != [] {
      MembersArePairs(cs[..|cs| - 1]);
      var ps := Pairs(cs);
      if ps.Some? {
        var init := ps.value[..|cs| - 1];
        assert init == Pairs(cs[..|cs| - 1]).value;
      }
    }
  }

  function JoinPairs(a: Option<seq<Member>>, b: Option<seq<Member>>): Option<seq<Member>> {
    if a.Some? && b.Some? then Some(a.value + b.value) else None
  }

  lemma {:induction false} PairsConcat(a: seq<Node>, b: seq<Node>)
    ensures Pairs(a + b) == JoinPairs(Pairs(a), Pairs(b))
    decreases |b|
  {
    if b == [] {
      assert a + b == a;
      if Pairs(a).Some? {
        assert Pairs(a).value + [] == Pairs(a).value;
      }
    } else {
      var b', last := b[..|b| - 1], b[|b| - 1];
      PairsConcat(a, b');
      assert (a + b)[..|a + b| - 1] == a + b';
      assert (a + b)[|a + b| - 1] == last;
      var x, y := Pairs(a), Pairs(b');
      if x.Some? && y.Some? && Value(last).Some? {
        assert Pairs(a + b').value == x.value + y.value;
        assert x.value + (y.value + [(PropName(last.key), Value(last).value)]) == x.value + y.value + [(PropName(last.key), Value(last).value)];
      }
    }
  }

  lemma {:induction false} PairsSplit(cs: seq<Node>, i: nat, ps: seq<Member>)
    requires Pairs(cs) == Some(ps) && i <= |cs|
    ensures Pairs(cs[..i]) == Some(ps[..i]) && Pairs(cs[i..]) == Some(ps[i..])
  {
    assert cs == cs[..i] + cs[i..];
    PairsConcat(cs[..i], cs[i..]);
    var a, b := Pairs(cs[..i]).value, Pairs(cs[i..]).value;
    assert a + b == ps && |a| == i;
    assert a == ps[..i] && b == ps[i..];
  }

  /** Inserting a row before position `i` of an object inserts its pair at position `i` before the collapse. */
  lemma {:induction false} InsertPairs(cs: seq<Node>, i: nat, c: Node, ps: seq<Member>, x: Json)
    requires Pairs(cs) == Some(ps) && i <= |cs| && Value(c) == Some(x)
    ensures MembersOf(InsertAt(cs, i, c)) == Some(Collapse(ps[..i] + [(PropName(c.key), x)] + ps[i..]))
  {
    PairsSplit(cs, i, ps);
    assert [c][..0] == [];
    PairsConcat(cs[..i], [c]);
    PairsConcat(cs[..i] + [c], cs[i..]);
    MembersArePairs(InsertAt(cs, i, c));
  }

  /** Removing the row at `i` of an object removes its pair before the collapse. */
  lemma {:induction false} RemovePairs(cs: seq<Node>, i: nat, ps: seq<Member>)
    requires Pairs(cs) == Some(ps) && i < |cs|
    ensures MembersOf(RemoveAt(cs, i)) == Some(Collapse(ps[..i] + ps[i + 1..]))
  {
    PairsSplit(cs, i, ps);
    PairsSplit(cs[i..], 1, ps[i..]);
    assert cs[i..][1..] == cs[i + 1..] && ps[i..][1..] == ps[i + 1..];
    PairsConcat(cs[..i], cs[i + 1..]);
    MembersArePairs(RemoveAt(cs, i));
  }

  /** Appending a row to an object assigns its value under its name: a new name goes last, a repeated one takes the new value in place. */
  lemma {:induction false} AppendMembers(cs: seq<Node>, c: Node, ms: seq<Member>, x: Json)
    requires MembersOf(cs) == Some(ms) && Value(c) == Some(x)
    ensures MembersOf(cs + [c]) == Some(Assign(ms, PropName(c.key), x))
    ensures Lookup(MembersOf(cs + [c]).value, PropName(c.key)) == Some(x)
  {
    assert (cs + [c])[..|cs|] == cs;
    AssignThenLookup(ms, PropName(c.key), x, PropName(c.key));
  }
}
