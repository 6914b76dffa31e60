/**
 * The editing card of the tree page and the four edits it commits: Edit
 * replaces a row (or renames it), Insert places a new row before another,
 * Add appends a row to a container and Delete removes one. There is one
 * card: it is closed or open on an anchor row with a draft of its inputs.
 */
module EditSession {
  import opened Wrappers
  import opened Decimal
  import opened JsonValue
  import opened JsonText
  import opened TreeModel

  // ---------------------------------------------------------------------
  // Positions: a row's parent
  // ---------------------------------------------------------------------

  function Parent(p: seq<nat>): seq<nat>
    requires p != []
  {
    p[..|p| - 1]
  }

  function Last(p: seq<nat>): nat
    requires p != []
  {
    p[|p| - 1]
  }

  /** The row at `p` is child `Last(p)` of the row at `Parent(p)`. */
  lemma {:induction false} AtParent(n: Node, p: seq<nat>)
    requires ValidPath(n, p) && p != []
    ensures ValidPath(n, Parent(p)) && Last(p) < |At(n, Parent(p)).children|
    ensures At(n, p) == At(n, Parent(p)).children[Last(p)]
    decreases p
  {
    if |p| > 1 {
      var c := n.children[p[0]];
      AtParent(c, p[1..]);
      assert p[1..][..|p[1..]| - 1] == Parent(p)[1..];
      assert Parent(p)[0] == p[0];
    }
  }

  /** Every row of a well-formed tree is well formed and sits one level per step below the top. */
  lemma {:induction false} AtWf(n: Node, p: seq<nat>)
    requires WfNode(n) && ValidPath(n, p)
    ensures WfNode(At(n, p)) && At(n, p).level == n.level + |p|
    decreases p
  {
    if p != [] {
      AtWf(n.children[p[0]], p[1..]);
    }
  }

  /** A row below the top of a well-formed tree has a parent container whose labels it fits. */
  lemma {:induction false} ChildFits(root: Node, p: seq<nat>)
    requires Wf(root) && ValidPath(root, p) && p != []
    ensures ValidPath(root, Parent(p)) && IsCollection(At(root, Parent(p)).typeIndex)
    ensures KeyFits(At(root, Parent(p)).typeIndex, At(root, p).key)
    ensures At(root, p).key.Some? && At(root, p).level == |p|
  {
    AtParent(root, p);
    AtWf(root, Parent(p));
    AtWf(root, p);
    var parent := At(root, Parent(p));
    assert parent.children[Last(p)] == At(root, p);
    TypeTable(parent.typeIndex);
  }

  // ---------------------------------------------------------------------
  // The card
  // ---------------------------------------------------------------------

  datatype Mode = EditMode | InsertMode | AddMode

  /**
   * The card's inputs: the name text and whether it can be typed in (a
   * string label can, an index cannot), the selected type, the value text
   * and whether it can be typed in, and whether the value was changed.
   */
  datatype Draft = Draft(name: string, nameEnabled: bool, typeIndex: nat, value: string, valueEnabled: bool, changed: bool)

  datatype Card = Closed | Open(mode: Mode, anchor: seq<nat>, draft: Draft)

  datatype EditError = SyntaxError | NotAString | UnsupportedKey

  /** Whether a name text is JSON text for a string. */
  predicate IsStringText(name: string) {
    Parse(name).Some? && Parse(name).value.JString?
  }

  /**
   * Filling the card: a name (absent for the root) is shown enabled exactly
   * when it reads as a string; the value defaults to the type's default
   * text and is enabled only for strings and numbers; nothing is changed yet.
   */
  function ShowDraft(name: Option<string>, t: nat, value: Option<string>): (d: Draft)
    requires t < |ElementTypes|
    ensures d.typeIndex == t && !d.changed
    ensures d.nameEnabled <==> name.Some? && IsStringText(name.value)
    ensures d.valueEnabled <==> t == 2 || t == 3
  {
    TypeTable(t);
    Draft(
      if name.Some? then name.value else "",
      name.Some? && IsStringText(name.value),
      t,
      if value.Some? then value.value else ElementTypes[t].defaultValue,
      ElementTypes[t].editable,
      false)
  }

  /** The draft for editing a row: its label, its type, and its text or its current summary. */
  function EditDraft(n: Node): Draft
    requires n.typeIndex < |ElementTypes|
  {
    ShowDraft(
      if n.key.Some? then Some(KeyText(n.key.value)) else None,
      n.typeIndex,
      Some(if IsCollection(n.typeIndex) then Summary(n.typeIndex, |n.children|) else n.text))
  }

  /** The draft for inserting before a row: an empty name beside a named row, the row's index beside an indexed one, and the row's type. */
  function InsertDraft(n: Node): Draft
    requires n.typeIndex < |ElementTypes| && n.key.Some?
  {
    var keyText := KeyText(n.key.value);
    ShowDraft(Some(if IsStringText(keyText) then ElementTypes[2].defaultValue else keyText), n.typeIndex, None)
  }

  /**
   * The draft for adding to a container: after a named last child an empty
   * name, after an indexed one the next index, and the last child's type;
   * in an empty container an empty name (object) or index 0 (array), typed string.
   */
  function AddDraft(c: Node): Draft
    requires forall i :: 0 <= i < |c.children| ==> c.children[i].typeIndex < |ElementTypes|
  {
    if c.children == [] then
      ShowDraft(Some(if c.typeIndex == 0 then ElementTypes[2].defaultValue else ElementTypes[3].defaultValue), 2, None)
    else
      var last := c.children[|c.children| - 1];
      var name := match last.key
        case Some(Index(i)) => Stringify(JNumber(i + 1))
        case _ => ElementTypes[2].defaultValue;
      ShowDraft(Some(name), last.typeIndex, None)
  }

  /** Choosing another type puts its default text in the value, enables the value for strings and numbers, and marks the value changed. */
  function SelectType(d: Draft, t: nat): (r: Draft)
    requires t < |ElementTypes|
    ensures t != d.typeIndex ==> r.typeIndex == t && r.changed && (r.valueEnabled <==> t == 2 || t == 3)
    ensures t != d.typeIndex ==> Parse(r.value) == Some(DefaultValue(t))
    ensures t == d.typeIndex ==> r == d
    ensures r.name == d.name && r.nameEnabled == d.nameEnabled
  {
    TypeTable(t);
    if t == d.typeIndex then d
    else d.(typeIndex := t, value := ElementTypes[t].defaultValue, valueEnabled := ElementTypes[t].editable, changed := true)
  }

  /** Typing a name: only an enabled name input takes it. */
  function EditName(d: Draft, s: string): (r: Draft)
    ensures d.nameEnabled ==> r == d.(name := s)
    ensures !d.nameEnabled ==> r == d
  {
    if d.nameEnabled then d.(name := s) else d
  }

  /** Typing a value: only an enabled value input takes it, and a different text marks it changed. */
  function EditValue(d: Draft, s: string): (r: Draft)
    ensures d.valueEnabled ==> r.value == s && (r.changed <==> d.changed || s != d.value)
    ensures !d.valueEnabled ==> r == d
    ensures r.name == d.name && r.nameEnabled == d.nameEnabled && r.typeIndex == d.typeIndex
  {
    if d.valueEnabled then d.(value := s, changed := d.changed || s != d.value) else d
  }

  // ---------------------------------------------------------------------
  // Reading the card's inputs
  // ---------------------------------------------------------------------

  /** JSON.parse of the value text. */
  function ParseValueText(s: string): (r: Result<Json, EditError>)
    ensures r.Ok? <==> Parse(s).Some?
    ensures r.Ok? ==> r.value == Parse(s).value && WellFormed(r.value)
    ensures r.Err? ==> r.error == SyntaxError
  {
    ParseWellFormed(s);
    match Parse(s)
    case None => Err(SyntaxError)
    case Some(v) => Ok(v)
  }

  /** A name must be JSON text for a string; the string is the name. */
  function ParseName(s: string): (r: Result<string, EditError>)
    ensures r.Ok? <==> IsStringText(s)
    ensures r.Ok? ==> Parse(s) == Some(JString(r.value))
    ensures r.Err? ==> (r.error == SyntaxError <==> Parse(s).None?)
  {
    match Parse(s)
    case None => Err(SyntaxError)
    case Some(JString(name)) => Ok(name)
    case Some(_) => Err(NotAString)
  }

  /**
   * The label of a new row: an enabled name must read as a string; a
   * disabled one is read as it is, which is an index for an array's child.
   */
  function DraftKey(d: Draft): (r: Result<Key, EditError>)
    ensures d.nameEnabled ==> (r.Ok? <==> IsStringText(d.name)) && (r.Ok? ==> r.value.Name? && Parse(d.name) == Some(JString(r.value.name)))
    ensures !d.nameEnabled && Parse(d.name).Some? && Parse(d.name).value.JNumber? ==> r == Ok(Index(Parse(d.name).value.num))
  {
    if d.nameEnabled then
      var name :- ParseName(d.name);
      Ok(Name(name))
    else
      match Parse(d.name)
      case None => Err(SyntaxError)
      case Some(JNumber(i)) => Ok(Index(i))
      case Some(JString(s)) => Ok(Name(s))
      case Some(_) => Err(UnsupportedKey)
  }

  // ---------------------------------------------------------------------
  // Committing the card
  // ---------------------------------------------------------------------

  /** Whether the card may commit against this tree: its anchor exists, and the anchor suits the mode. */
  predicate CanCommit(root: Node, card: Card) {
    card.Open? && ValidPath(root, card.anchor) &&
    match card.mode
    case EditMode => true
    case InsertMode => card.anchor != []
    case AddMode => IsCollection(At(root, card.anchor).typeIndex)
  }

  /** The container at `q` with its children replaced. */
  function PutChildren(root: Node, q: seq<nat>, cs: seq<Node>): Node
    requires ValidPath(root, q)
  {
    Put(root, q, At(root, q).(children := cs))
  }

  /**
   * OK on an Edit card. With a changed value the row is rebuilt from the
   * parsed value: at the root without a label, elsewhere at the row's level
   * with the label read from the name. With nothing changed a member row
   * with an enabled name is only renamed, and anything else stays as it was.
   * The value is read before the label.
   */
  function CommitEdit(root: Node, p: seq<nat>, d: Draft): Result<Node, EditError>
    requires ValidPath(root, p)
  {
    var n := At(root, p);
    if d.changed then
      var v :- ParseValueText(d.value);
      if n.level == 0 then
        Ok(Put(root, p, From(v, None, 0)))
      else
        var k :- DraftKey(d);
        Ok(Put(root, p, From(v, Some(k), n.level)))
    else if n.level > 0 && d.nameEnabled then
      var name :- ParseName(d.name);
      Ok(Put(root, p, n.(key := Some(Name(name)))))
    else
      Ok(root)
  }

  /** OK on an Insert card: a row at the anchor's level, placed just before the anchor, and then an array parent relabelled. */
  function CommitInsert(root: Node, p: seq<nat>, d: Draft): Result<Node, EditError>
    requires ValidPath(root, p) && p != []
  {
    var v :- ParseValueText(d.value);
    var k :- DraftKey(d);
    AtParent(root, p);
    var parent := At(root, Parent(p));
    var inserted := parent.(children := InsertAt(parent.children, Last(p), From(v, Some(k), At(root, p).level)));
    Ok(Put(root, Parent(p), Relabel(inserted)))
  }

  /** OK on an Add card: a row one level below the container, appended after its last child; nothing is relabelled. */
  function CommitAdd(root: Node, p: seq<nat>, d: Draft): Result<Node, EditError>
    requires ValidPath(root, p)
  {
    var v :- ParseValueText(d.value);
    var k :- DraftKey(d);
    var c := At(root, p);
    Ok(PutChildren(root, p, c.children + [From(v, Some(k), c.level + 1)]))
  }

  /** OK on the card: on success the new tree, on failure the error and the tree as it was. */
  function Commit(root: Node, card: Card): Result<Node, EditError>
    requires CanCommit(root, card)
  {
    match card.mode
    case EditMode => CommitEdit(root, card.anchor, card.draft)
    case InsertMode => CommitInsert(root, card.anchor, card.draft)
    case AddMode => CommitAdd(root, card.anchor, card.draft)
  }

  /** Delete: the row is taken out of its parent; the labels of later siblings are left as they were. */
  function DeleteRow(root: Node, p: seq<nat>): Node
    requires ValidPath(root, p) && p != []
  {
    AtParent(root, p);
    var parent := At(root, Parent(p));
    PutChildren(root, Parent(p), RemoveAt(parent.children, Last(p)))
  }

  // ---------------------------------------------------------------------
  // The card's invariant
  // ---------------------------------------------------------------------

  /** The type of the container the row at `p` belongs to. */
  function ParentType(root: Node, p: seq<nat>): nat
    requires ValidPath(root, p) && p != []
  {
    AtParent(root, p);
    At(root, Parent(p)).typeIndex
  }

  /** The name input suits a container: an enabled name beside an object's members, a disabled index beside an array's elements. */
  predicate DraftFits(t: nat, d: Draft) {
    (t == 0 ==> d.nameEnabled) &&
    (t == 1 ==> !d.nameEnabled && Parse(d.name).Some? && Parse(d.name).value.JNumber?)
  }

  /**
   * What holds of the card while the page runs: an open card can commit,
   * shows a type of the table, and its name input suits the container the
   * new or edited row belongs to.
   */
  predicate CardOk(root: Node, card: Card) {
    card.Closed? ||
    (CanCommit(root, card) && card.draft.typeIndex < |ElementTypes| &&
     (card.mode == AddMode ==> DraftFits(At(root, card.anchor).typeIndex, card.draft)) &&
     (card.mode != AddMode && card.anchor != [] ==> DraftFits(ParentType(root, card.anchor), card.draft)))
  }

  /** The card opened by Edit suits its row. */
  lemma {:induction false} OpenEditOk(root: Node, p: seq<nat>)
    requires Wf(root) && ValidPath(root, p)
    ensures At(root, p).typeIndex < |ElementTypes|
    ensures CardOk(root, Open(EditMode, p, EditDraft(At(root, p))))
  {
    AtWf(root, p);
    if p != [] {
      ChildFits(root, p);
      KeyTextRead(At(root, p).key.value);
    }
  }

  /** The card opened by Insert suits the anchor's container. */
  lemma {:induction false} OpenInsertOk(root: Node, p: seq<nat>)
    requires Wf(root) && ValidPath(root, p) && p != []
    ensures At(root, p).typeIndex < |ElementTypes| && At(root, p).key.Some?
    ensures CardOk(root, Open(InsertMode, p, InsertDraft(At(root, p))))
  {
    AtWf(root, p);
    ChildFits(root, p);
    KeyTextRead(At(root, p).key.value);
    TypeTable(2);
  }

  /** The card opened by a container's Add suits the container. */
  lemma {:induction false} OpenAddOk(root: Node, p: seq<nat>)
    requires Wf(root) && ValidPath(root, p) && IsCollection(At(root, p).typeIndex)
    ensures forall i :: 0 <= i < |At(root, p).children| ==> At(root, p).children[i].typeIndex < |ElementTypes|
    ensures CardOk(root, Open(AddMode, p, AddDraft(At(root, p))))
  {
    AtWf(root, p);
    AddDraftFits(At(root, p));
  }

  /** The draft Add proposes suits the container, on the container alone. */
  lemma {:induction false} AddDraftFits(c: Node)
    requires WfNode(c) && IsCollection(c.typeIndex)
    ensures forall i :: 0 <= i < |c.children| ==> c.children[i].typeIndex < |ElementTypes|
    ensures AddDraft(c).typeIndex < |ElementTypes| && DraftFits(c.typeIndex, AddDraft(c))
  {
    TypeTable(c.typeIndex);
    TypeTable(2);
    TypeTable(3);
    if c.children != [] {
      var last := c.children[|c.children| - 1];
      if last.key.Some? && last.key.value.Index? {
        ParseStringify(JNumber(last.key.value.index + 1));
      }
    }
  }

  /** Choosing a type, typing a name or typing a value keeps the card suited to its row. */
  lemma {:induction false} DraftStepsOk(root: Node, card: Card, t: nat, s: string)
    requires CardOk(root, card) && card.Open? && t < |ElementTypes|
    ensures CardOk(root, card.(draft := SelectType(card.draft, t)))
    ensures CardOk(root, card.(draft := EditName(card.draft, s)))
    ensures CardOk(root, card.(draft := EditValue(card.draft, s)))
  {
  }

  // ---------------------------------------------------------------------
  // Committing keeps the tree well formed
  // ---------------------------------------------------------------------

  /** The label read from a suited draft is of the kind its container uses. */
  lemma {:induction false} DraftKeyFits(t: nat, d: Draft)
    requires DraftFits(t, d) && t < 2 && DraftKey(d).Ok?
    ensures KeyFits(t, Some(DraftKey(d).value))
  {
  }

  /** A row's own label plays no part in its shape. */
  lemma {:induction false} WfRelabelled(n: Node, key: Option<Key>)
    requires WfNode(n)
    ensures WfNode(n.(key := key))
  {
    assert n.(key := key).children == n.children;
  }

  /** Children of the right level, kind and shape make a well-formed container. */
  lemma {:induction false} WfWithChildren(c: Node, cs: seq<Node>)
    requires WfNode(c) && IsCollection(c.typeIndex)
    requires forall i :: 0 <= i < |cs| ==> cs[i].level == c.level + 1 && KeyFits(c.typeIndex, cs[i].key) && WfNode(cs[i])
    ensures WfNode(c.(children := cs))
  {
    TypeTable(c.typeIndex);
  }

  lemma {:induction false} EditWf(root: Node, p: seq<nat>, d: Draft, r: Node)
    requires Wf(root) && CardOk(root, Open(EditMode, p, d))
    requires CommitEdit(root, p, d) == Ok(r)
    ensures Wf(r)
  {
    var n := At(root, p);
    AtWf(root, p);
    if d.changed {
      var v := Parse(d.value).value;
      ParseWellFormed(d.value);
      if n.level == 0 {
        assert p == [];
        WfFrom(v, None, 0);
      } else {
        ChildFits(root, p);
        var k := DraftKey(d).value;
        DraftKeyFits(ParentType(root, p), d);
        WfFrom(v, Some(k), n.level);
        PutWfRoot(root, p, From(v, Some(k), n.level));
      }
    } else if n.level > 0 && d.nameEnabled {
      ChildFits(root, p);
      var name := ParseName(d.name).value;
      WfRelabelled(n, Some(Name(name)));
      PutWfRoot(root, p, n.(key := Some(Name(name))));
    }
  }

  lemma {:induction false} InsertWf(root: Node, p: seq<nat>, d: Draft, r: Node)
    requires Wf(root) && CardOk(root, Open(InsertMode, p, d))
    requires CommitInsert(root, p, d) == Ok(r)
    ensures Wf(r)
  {
    var n := At(root, p);
    ChildFits(root, p);
    AtParent(root, p);
    AtWf(root, Parent(p));
    var parent := At(root, Parent(p));
    var v := Parse(d.value).value;
    ParseWellFormed(d.value);
    var k := DraftKey(d).value;
    DraftKeyFits(parent.typeIndex, d);
    var m := From(v, Some(k), n.level);
    WfFrom(v, Some(k), n.level);
    var cs := InsertAt(parent.children, Last(p), m);
    WfWithChildren(parent, cs);
    var inserted := parent.(children := cs);
    RelabelWf(inserted);
    PutWfRoot(root, Parent(p), Relabel(inserted));
  }

  lemma {:induction false} AddWf(root: Node, p: seq<nat>, d: Draft, r: Node)
    requires Wf(root) && CardOk(root, Open(AddMode, p, d))
    requires CommitAdd(root, p, d) == Ok(r)
    ensures Wf(r)
  {
    var c := At(root, p);
    AtWf(root, p);
    var v := Parse(d.value).value;
    ParseWellFormed(d.value);
    var k := DraftKey(d).value;
    DraftKeyFits(c.typeIndex, d);
    var m := From(v, Some(k), c.level + 1);
    WfFrom(v, Some(k), c.level + 1);
    WfWithChildren(c, c.children + [m]);
    PutWfRoot(root, p, c.(children := c.children + [m]));
  }

  /** Every successful OK leaves a well-formed tree. */
  lemma {:induction false} CommitWf(root: Node, card: Card)
    requires Wf(root) && CardOk(root, card) && card.Open?
    ensures Commit(root, card).Ok? ==> Wf(Commit(root, card).value)
  {
    if Commit(root, card).Ok? {
      var r := Commit(root, card).value;
      match card.mode
      case EditMode => EditWf(root, card.anchor, card.draft, r);
      case InsertMode => InsertWf(root, card.anchor, card.draft, r);
      case AddMode => AddWf(root, card.anchor, card.draft, r);
    }
  }

  /** Deleting a row leaves a well-formed tree. */
  lemma {:induction false} DeleteWf(root: Node, p: seq<nat>)
    requires Wf(root) && ValidPath(root, p) && p != []
    ensures Wf(DeleteRow(root, p))
  {
    ChildFits(root, p);
    AtParent(root, p);
    AtWf(root, Parent(p));
    var parent := At(root, Parent(p));
    var cs := RemoveAt(parent.children, Last(p));
    WfWithChildren(parent, cs);
    PutWfRoot(root, Parent(p), parent.(children := cs));
  }

  // ---------------------------------------------------------------------
  // What each commit does to the value
  // ---------------------------------------------------------------------

  /** A failed read of the value text fails the commit, before the name is looked at. */
  lemma {:induction false} CommitRejectsValue(root: Node, card: Card)
    requires CanCommit(root, card) && (card.mode != EditMode || card.draft.changed)
    requires Parse(card.draft.value).None?
    ensures Commit(root, card) == Err(SyntaxError)
  {
  }

  /**
   * With a readable value, a commit that reads an enabled name succeeds
   * exactly when the name is JSON text for a string.
   */
  lemma {:induction false} CommitNeedsStringName(root: Node, card: Card)
    requires CanCommit(root, card) && card.draft.nameEnabled && Parse(card.draft.value).Some?
    requires card.mode == EditMode ==> At(root, card.anchor).level > 0
    ensures Commit(root, card).Ok? <==> IsStringText(card.draft.name)
  {
  }

  /** At the root, Edit reads no name: the name input makes no difference. */
  lemma {:induction false} RootEditIgnoresName(root: Node, d: Draft, name: string, enabled: bool)
    requires root.level == 0
    ensures CommitEdit(root, [], d) == CommitEdit(root, [], d.(name := name, nameEnabled := enabled))
  {
  }

  /**
   * Edit with a changed value: the row becomes the rows of the parsed
   * value, of the parsed value's own type whatever type was selected, at
   * the same level, labelled as the name says (no label at the root).
   */
  lemma {:induction false} EditReplaces(root: Node, p: seq<nat>, d: Draft, r: Node)
    requires Wf(root) && ValidPath(root, p) && d.changed
    requires CommitEdit(root, p, d) == Ok(r)
    ensures Parse(d.value).Some? && ValidPath(r, p)
    ensures Value(At(r, p)) == Parse(d.value)
    ensures At(r, p).typeIndex == TypeIndex(Parse(d.value).value)
    ensures At(r, p).level == At(root, p).level
    ensures p == [] ==> At(r, p).key.None?
    ensures p != [] ==> DraftKey(d).Ok? && At(r, p).key == Some(DraftKey(d).value)
  {
    var n := At(root, p);
    AtWf(root, p);
    var v := Parse(d.value).value;
    ParseWellFormed(d.value);
    var key := if n.level == 0 then None else Some(DraftKey(d).value);
    ValueFrom(v, key, n.level);
    PutAt(root, p, From(v, key, n.level));
  }

  /** Edit with nothing changed renames a member and leaves its value and children alone; anything else stays as it was. */
  lemma {:induction false} EditRenames(root: Node, p: seq<nat>, d: Draft, r: Node)
    requires ValidPath(root, p) && !d.changed
    requires CommitEdit(root, p, d) == Ok(r)
    ensures ValidPath(r, p)
    ensures At(root, p).level > 0 && d.nameEnabled ==>
      At(r, p) == At(root, p).(key := Some(Name(ParseName(d.name).value))) && Value(At(r, p)) == Value(At(root, p))
    ensures !(At(root, p).level > 0 && d.nameEnabled) ==> r == root
  {
    var n := At(root, p);
    if n.level > 0 && d.nameEnabled {
      var m := n.(key := Some(Name(ParseName(d.name).value)));
      PutAt(root, p, m);
      ValueIgnoresKey(n, m.key);
    }
  }

  /** The row an Insert builds reads as the parsed value, and the anchor's container gets it just before the anchor. */
  lemma {:induction false} InsertParts(root: Node, p: seq<nat>, d: Draft, r: Node)
    requires ValidPath(root, p) && p != []
    requires CommitInsert(root, p, d) == Ok(r)
    ensures Parse(d.value).Some? && DraftKey(d).Ok?
    ensures ValidPath(root, Parent(p)) && ValidPath(r, Parent(p))
    ensures Last(p) < |At(root, Parent(p)).children|
    ensures var parent := At(root, Parent(p));
      var m := From(Parse(d.value).value, Some(DraftKey(d).value), At(root, p).level);
      Value(m) == Parse(d.value) &&
      At(r, Parent(p)) == Relabel(parent.(children := InsertAt(parent.children, Last(p), m)))
  {
    AtParent(root, p);
    var parent := At(root, Parent(p));
    var v := Parse(d.value).value;
    ParseWellFormed(d.value);
    var m := From(v, Some(DraftKey(d).value), At(root, p).level);
    ValueFrom(v, Some(DraftKey(d).value), At(root, p).level);
    PutAt(root, Parent(p), Relabel(parent.(children := InsertAt(parent.children, Last(p), m))));
  }

  /** Insert into an array, on the container alone: the element goes in at `i` and the labels become 0 .. n. */
  lemma {:induction false} InsertIntoArrayNode(parent: Node, i: nat, m: Node, es: seq<Json>, v: Json)
    requires IsCollection(parent.typeIndex) && Value(parent) == Some(JArray(es))
    requires i <= |parent.children| && Value(m) == Some(v)
    ensures i <= |es|
    ensures var r := Relabel(parent.(children := InsertAt(parent.children, i, m)));
      Value(r) == Some(JArray(es[..i] + [v] + es[i..])) &&
      forall j :: 0 <= j < |r.children| ==> r.children[j].key == Some(Index(j))
  {
    TypeTable(parent.typeIndex);
    assert parent.typeIndex == 1;
    assert ElementsOf(parent.children) == Some(es);
    var inserted := parent.(children := InsertAt(parent.children, i, m));
    InsertElements(parent.children, i, m, es, v);
    RelabelValue(inserted);
  }

  /**
   * Insert into an array: the value gains the new element just before the
   * anchor's position, and the children are labelled 0 .. n in order.
   */
  lemma {:induction false} InsertIntoArray(root: Node, p: seq<nat>, d: Draft, r: Node, es: seq<Json>)
    requires ValidPath(root, p) && p != []
    requires CommitInsert(root, p, d) == Ok(r)
    requires ValidPath(root, Parent(p)) && IsCollection(At(root, Parent(p)).typeIndex)
    requires Value(At(root, Parent(p))) == Some(JArray(es))
    ensures Parse(d.value).Some? && ValidPath(r, Parent(p)) && Last(p) <= |es|
    ensures Value(At(r, Parent(p))) == Some(JArray(es[..Last(p)] + [Parse(d.value).value] + es[Last(p)..]))
    ensures |At(r, Parent(p)).children| == |At(root, Parent(p)).children| + 1
    ensures forall j :: 0 <= j < |At(r, Parent(p)).children| ==> At(r, Parent(p)).children[j].key == Some(Index(j))
  {
    InsertParts(root, p, d, r);
    var parent := At(root, Parent(p));
    var v := Parse(d.value).value;
    var m := From(v, Some(DraftKey(d).value), At(root, p).level);
    InsertIntoArrayNode(parent, Last(p), m, es, v);
    var q := Relabel(parent.(children := InsertAt(parent.children, Last(p), m)));
    assert At(r, Parent(p)) == q;
  }

  /** Insert into an object, on the container alone: the new pair goes in at `i` before names are collapsed. */
  lemma {:induction false} InsertIntoObjectNode(parent: Node, i: nat, m: Node, ps: seq<Member>, v: Json)
    requires parent.typeIndex == 0 && Pairs(parent.children) == Some(ps)
    requires i <= |parent.children| && Value(m) == Some(v)
    ensures i <= |ps|
    ensures Value(Relabel(parent.(children := InsertAt(parent.children, i, m)))) ==
      Some(JObject(Collapse(ps[..i] + [(PropName(m.key), v)] + ps[i..])))
  {
    InsertPairs(parent.children, i, m, ps, v);
  }

  /**
   * Insert into an object: the new member's pair goes just before the
   * anchor's, and the object is what reading the pairs in order gives,
   * the later of two equal names winning.
   */
  lemma {:induction false} InsertIntoObject(root: Node, p: seq<nat>, d: Draft, r: Node, ps: seq<Member>)
    requires Wf(root) && CardOk(root, Open(InsertMode, p, d))
    requires CommitInsert(root, p, d) == Ok(r)
    requires ValidPath(root, Parent(p)) && At(root, Parent(p)).typeIndex == 0
    requires Pairs(At(root, Parent(p)).children) == Some(ps)
    ensures Parse(d.value).Some? && IsStringText(d.name) && ValidPath(r, Parent(p)) && Last(p) <= |ps|
    ensures Value(At(r, Parent(p))) == Some(JObject(Collapse(ps[..Last(p)] + [(Parse(d.name).value.str, Parse(d.value).value)] + ps[Last(p)..])))
  {
    InsertParts(root, p, d, r);
    var parent := At(root, Parent(p));
    var k := DraftKey(d).value;
    assert d.nameEnabled && k.Name? && Parse(d.name) == Some(JString(k.name));
    var m := From(Parse(d.value).value, Some(k), At(root, p).level);
    InsertIntoObjectNode(parent, Last(p), m, ps, Parse(d.value).value);
  }

  /** The row an Add builds is appended to the container, at the level below it and labelled from the name. */
  lemma {:induction false} AddParts(root: Node, p: seq<nat>, d: Draft, r: Node)
    requires ValidPath(root, p)
    requires CommitAdd(root, p, d) == Ok(r)
    ensures Parse(d.value).Some? && DraftKey(d).Ok? && ValidPath(r, p)
    ensures At(r, p) == At(root, p).(children := At(root, p).children + [From(Parse(d.value).value, Some(DraftKey(d).value), At(root, p).level + 1)])
  {
    var c := At(root, p);
    PutAt(root, p, c.(children := c.children + [From(Parse(d.value).value, Some(DraftKey(d).value), c.level + 1)]));
  }

  /** Add to an array, on the container alone: the element goes last. */
  lemma {:induction false} AddToArrayNode(c: Node, m: Node, es: seq<Json>, v: Json)
    requires IsCollection(c.typeIndex) && Value(c) == Some(JArray(es)) && Value(m) == Some(v)
    ensures Value(c.(children := c.children + [m])) == Some(JArray(es + [v]))
  {
    TypeTable(c.typeIndex);
    assert c.typeIndex == 1 && ElementsOf(c.children) == Some(es);
    AppendElements(c.children, m, es, v);
  }

  /** Add to an array appends the element; the old children, labels included, stay as they were. */
  lemma {:induction false} AddToArray(root: Node, p: seq<nat>, d: Draft, r: Node, es: seq<Json>)
    requires ValidPath(root, p) && IsCollection(At(root, p).typeIndex)
    requires CommitAdd(root, p, d) == Ok(r)
    requires Value(At(root, p)) == Some(JArray(es))
    ensures Parse(d.value).Some? && ValidPath(r, p)
    ensures Value(At(r, p)) == Some(JArray(es + [Parse(d.value).value]))
    ensures |At(r, p).children| == |At(root, p).children| + 1
    ensures At(r, p).children[..|At(root, p).children|] == At(root, p).children
  {
    AddParts(root, p, d, r);
    AddDraftToArray(At(root, p), d, es, At(r, p));
  }

  /** The row an Add card builds, added to an array, becomes its last element. */
  lemma {:induction false} AddDraftToArray(c: Node, d: Draft, es: seq<Json>, n: Node)
    requires IsCollection(c.typeIndex) && Value(c) == Some(JArray(es))
    requires DraftKey(d).Ok? && Parse(d.value).Some?
    requires n == c.(children := c.children + [From(Parse(d.value).value, Some(DraftKey(d).value), c.level + 1)])
    ensures Value(n) == Some(JArray(es + [Parse(d.value).value]))
    ensures |n.children| == |c.children| + 1 && n.children[..|c.children|] == c.children
  {
    var v := Parse(d.value).value;
    var m := From(v, Some(DraftKey(d).value), c.level + 1);
    ParseWellFormed(d.value);
    ValueFrom(v, Some(DraftKey(d).value), c.level + 1);
    AddToArrayNode(c, m, es, v);
    AppendPrefix(c.children, [m]);
  }

  /** Add to an object, on the container alone: the value is assigned under the new child's name. */
  lemma {:induction false} AddToObjectNode(c: Node, m: Node, ms: seq<Member>, v: Json)
    requires c.typeIndex == 0 && Value(c) == Some(JObject(ms)) && Value(m) == Some(v)
    ensures Value(c.(children := c.children + [m])) == Some(JObject(Assign(ms, PropName(m.key), v)))
    ensures Lookup(Assign(ms, PropName(m.key), v), PropName(m.key)) == Some(v)
  {
    assert MembersOf(c.children) == Some(ms);
    AppendMembers(c.children, m, ms, v);
  }

  /** Add to an object assigns the value under the name: a new name goes last, a repeated one takes the new value. */
  lemma {:induction false} AddToObject(root: Node, p: seq<nat>, d: Draft, r: Node, ms: seq<Member>)
    requires ValidPath(root, p) && d.nameEnabled
    requires CommitAdd(root, p, d) == Ok(r)
    requires At(root, p).typeIndex == 0 && Value(At(root, p)) == Some(JObject(ms))
    ensures Parse(d.value).Some? && IsStringText(d.name) && ValidPath(r, p)
    ensures Value(At(r, p)) == Some(JObject(Assign(ms, Parse(d.name).value.str, Parse(d.value).value)))
    ensures Lookup(Assign(ms, Parse(d.name).value.str, Parse(d.value).value), Parse(d.name).value.str) == Some(Parse(d.value).value)
  {
    AddParts(root, p, d, r);
    AddDraftToObject(At(root, p), d, ms, At(r, p));
  }

  /** The row an Add card with an enabled name builds, added to an object, is assigned under the name it reads. */
  lemma {:induction false} AddDraftToObject(c: Node, d: Draft, ms: seq<Member>, n: Node)
    requires c.typeIndex == 0 && Value(c) == Some(JObject(ms))
    requires d.nameEnabled && DraftKey(d).Ok? && Parse(d.value).Some?
    requires n == c.(children := c.children + [From(Parse(d.value).value, Some(DraftKey(d).value), c.level + 1)])
    ensures IsStringText(d.name)
    ensures Value(n) == Some(JObject(Assign(ms, Parse(d.name).value.str, Parse(d.value).value)))
    ensures Lookup(Assign(ms, Parse(d.name).value.str, Parse(d.value).value), Parse(d.name).value.str) == Some(Parse(d.value).value)
  {
    var v := Parse(d.value).value;
    ParseWellFormed(d.value);
    ValueFrom(v, Some(DraftKey(d).value), c.level + 1);
    AddToObjectNode(c, From(v, Some(DraftKey(d).value), c.level + 1), ms, v);
  }

  /**
   * The Add card's proposal: after an indexed last child the next index,
   * disabled, which reads back as that index, and the last child's type;
   * after a named last child an enabled empty name and its type; in an
   * empty object an enabled empty name and in an empty array index 0,
   * typed string.
   */
  lemma {:induction false} AddDraftProposal(c: Node)
    requires forall i :: 0 <= i < |c.children| ==> c.children[i].typeIndex < |ElementTypes|
    ensures c.children == [] ==> AddDraft(c).typeIndex == 2
    ensures c.children == [] && c.typeIndex == 0 ==>
      AddDraft(c).nameEnabled && DraftKey(AddDraft(c)) == Ok(Name(""))
    ensures c.children == [] && c.typeIndex != 0 ==>
      !AddDraft(c).nameEnabled && DraftKey(AddDraft(c)) == Ok(Index(0))
    ensures c.children != [] ==> AddDraft(c).typeIndex == c.children[|c.children| - 1].typeIndex
    ensures c.children != [] && c.children[|c.children| - 1].key.Some? && c.children[|c.children| - 1].key.value.Index? ==>
      !AddDraft(c).nameEnabled &&
      DraftKey(AddDraft(c)) == Ok(Index(c.children[|c.children| - 1].key.value.index + 1))
    ensures c.children != [] && !(c.children[|c.children| - 1].key.Some? && c.children[|c.children| - 1].key.value.Index?) ==>
      AddDraft(c).nameEnabled && DraftKey(AddDraft(c)) == Ok(Name(""))
  {
    TypeTable(2);
    TypeTable(3);
    if c.children != [] {
      var last := c.children[|c.children| - 1];
      if last.key.Some? && last.key.value.Index? {
        ParseStringify(JNumber(last.key.value.index + 1));
      }
    }
  }

  /** Children labelled 0, 1, ... in order, as an array's rows are after a reset. */
  predicate Labelled(children: seq<Node>) {
    forall j :: 0 <= j < |children| ==> children[j].key == Some(Index(j))
  }

  /** An Add card's name and its enabling as the card proposed them for container `c`. */
  predicate ProposedName(c: Node, d: Draft) {
    (forall i :: 0 <= i < |c.children| ==> c.children[i].typeIndex < |ElementTypes|) &&
    d.name == AddDraft(c).name && d.nameEnabled == AddDraft(c).nameEnabled
  }

  /**
   * In an array labelled 0 to n-1 the proposed name, which choosing a type
   * and typing a name or a value leave alone, reads as the label n.
   */
  lemma {:induction false} ProposedIndex(c: Node, d: Draft)
    requires c.typeIndex == 1 && Labelled(c.children) && ProposedName(c, d)
    ensures DraftKey(d) == Ok(Index(|c.children|))
  {
    AddDraftProposal(c);
    assert DraftKey(d) == DraftKey(AddDraft(c));
  }

  /** Rows labelled 0 to n-1 with a row labelled n appended are labelled 0 to n. */
  lemma {:induction false} LabelledAppend(cs: seq<Node>, m: Node)
    requires Labelled(cs) && m.key == Some(Index(|cs|))
    ensures Labelled(cs + [m])
  {
    var ns := cs + [m];
    forall j | 0 <= j < |ns|
      ensures ns[j].key == Some(Index(j))
    {
      if j < |cs| {
        assert ns[j] == cs[j];
      }
    }
  }

  /**
   * Committing an Add card whose name reads as the label n to an array
   * labelled 0 to n-1 leaves it labelled 0 to n (ProposedIndex: the name
   * the card proposes does).
   */
  lemma {:induction false} AddKeepsLabels(root: Node, p: seq<nat>, d: Draft, r: Node)
    requires ValidPath(root, p) && Labelled(At(root, p).children)
    requires DraftKey(d) == Ok(Index(|At(root, p).children|))
    requires CommitAdd(root, p, d) == Ok(r)
    ensures ValidPath(r, p) && |At(r, p).children| == |At(root, p).children| + 1
    ensures Labelled(At(r, p).children)
  {
    AddParts(root, p, d, r);
    var c := At(root, p);
    LabelledAppend(c.children, From(Parse(d.value).value, Some(DraftKey(d).value), c.level + 1));
  }

  /** Delete from an array removes the element; later siblings keep their old labels. */
  lemma {:induction false} DeleteFromArray(root: Node, p: seq<nat>, es: seq<Json>)
    requires ValidPath(root, p) && p != []
    requires ValidPath(root, Parent(p)) && At(root, Parent(p)).typeIndex == 1
    requires Value(At(root, Parent(p))) == Some(JArray(es))
    ensures ValidPath(DeleteRow(root, p), Parent(p)) && Last(p) < |es|
    ensures |At(DeleteRow(root, p), Parent(p)).children| == |At(root, Parent(p)).children| - 1
    ensures Value(At(DeleteRow(root, p), Parent(p))) == Some(JArray(es[..Last(p)] + es[Last(p) + 1..]))
    ensures var old_cs := At(root, Parent(p)).children;
      forall j :: Last(p) <= j < |old_cs| - 1 ==> At(DeleteRow(root, p), Parent(p)).children[j].key == old_cs[j + 1].key
  {
    AtParent(root, p);
    var parent := At(root, Parent(p));
    var cs := RemoveAt(parent.children, Last(p));
    PutAt(root, Parent(p), parent.(children := cs));
    RemoveElements(parent.children, Last(p), es);
  }

  /** Delete from an object removes the member's pair before names are collapsed. */
  lemma {:induction false} DeleteFromObject(root: Node, p: seq<nat>, ps: seq<Member>)
    requires ValidPath(root, p) && p != []
    requires ValidPath(root, Parent(p)) && At(root, Parent(p)).typeIndex == 0
    requires Pairs(At(root, Parent(p)).children) == Some(ps)
    ensures ValidPath(DeleteRow(root, p), Parent(p)) && Last(p) < |ps|
    ensures Value(At(DeleteRow(root, p), Parent(p))) == Some(JObject(Collapse(ps[..Last(p)] + ps[Last(p) + 1..])))
  {
    AtParent(root, p);
    var parent := At(root, Parent(p));
    var cs := RemoveAt(parent.children, Last(p));
    PutAt(root, Parent(p), parent.(children := cs));
    RemovePairs(parent.children, Last(p), ps);
  }

  // ---------------------------------------------------------------------
  // Worked examples
  // ---------------------------------------------------------------------

  /** The card Insert opens on the element labelled 1, with 9 typed as the value, reads label 1 and value 9. */
  lemma {:induction false} InsertExampleDraft(n: Node)
    requires n.key == Some(Index(1)) && n.typeIndex == 3
    ensures var d := EditValue(InsertDraft(n), "9");
      DraftKey(d) == Ok(Index(1)) && Parse(d.value) == Some(JNumber(9))
  {
    KeyTextRead(n.key.value);
    TypeTable(3);
    var d := EditValue(InsertDraft(n), "9");
    assert d.value == Stringify(JNumber(9));
    ParseStringify(JNumber(9));
  }

  /**
   * Inserting 9 before the element labelled 1 of an array reading as
   * [1, 2, 3] gives [1, 9, 2, 3] labelled 0 .. 3; InsertExampleDraft and
   * InsertExampleTree show that the page built from [1, 2, 3] and the card
   * Insert opens there, with 9 typed, are such a tree and such a draft.
   */
  lemma {:induction false} InsertExample(root: Node, d: Draft)
    requires IsCollection(root.typeIndex) && Value(root) == Some(JArray([JNumber(1), JNumber(2), JNumber(3)]))
    requires ValidPath(root, [1]) && DraftKey(d) == Ok(Index(1)) && Parse(d.value) == Some(JNumber(9))
    ensures CommitInsert(root, [1], d).Ok?
    ensures var r := CommitInsert(root, [1], d).value;
      Value(r) == Some(JArray([JNumber(1), JNumber(9), JNumber(2), JNumber(3)])) &&
      |r.children| == |root.children| + 1 && forall j :: 0 <= j < |r.children| ==> r.children[j].key == Some(Index(j))
  {
    var es := [JNumber(1), JNumber(2), JNumber(3)];
    var r := CommitInsert(root, [1], d).value;
    assert Parent([1]) == [] && Last([1]) == 1;
    InsertIntoArray(root, [1], d, r, es);
    assert es[..1] + [JNumber(9)] + es[1..] == [JNumber(1), JNumber(9), JNumber(2), JNumber(3)];
  }

  /** The page built from [1, 2, 3] is such an array, its second row labelled 1 and holding a number. */
  lemma {:induction false} InsertExampleTree()
    ensures var root := From(JArray([JNumber(1), JNumber(2), JNumber(3)]), None, 0);
      IsCollection(root.typeIndex) && Value(root) == Some(JArray([JNumber(1), JNumber(2), JNumber(3)])) &&
      ValidPath(root, [1]) && At(root, [1]).key == Some(Index(1)) && At(root, [1]).typeIndex == 3
  {
    var es := [JNumber(1), JNumber(2), JNumber(3)];
    var root := From(JArray(es), None, 0);
    assert es[..2] == [JNumber(1), JNumber(2)];
    assert root.children[1] == FromElements(es[..2], 1)[1] == From(JNumber(2), Some(Index(1)), 1);
    ValueFrom(JArray(es), None, 0);
  }

  /** Add in an empty array proposes the label 0 and a string, and commits an element labelled 0. */
  lemma {:induction false} AddToEmptyArrayExample()
    ensures var root := From(JArray([]), None, 0);
      var d := AddDraft(root);
      d.name == "0" && !d.nameEnabled && d.typeIndex == 2 &&
      CommitAdd(root, [], d) == Ok(root.(children := [From(JString(""), Some(Index(0)), 1)]))
  {
    var root := From(JArray([]), None, 0);
    TypeTable(2);
    TypeTable(3);
    ParseStringify(JNumber(0));
    ParseStringify(JString(""));
    var d := AddDraft(root);
    assert d.name == Stringify(JNumber(0));
    assert d.value == Stringify(JString(""));
    assert Parse(d.value) == Some(JString(""));
    assert DraftKey(d) == Ok(Index(0));
    assert root.children + [From(JString(""), Some(Index(0)), 1)] == [From(JString(""), Some(Index(0)), 1)];
  }

  // ---------------------------------------------------------------------
  // Delete as intended: relabelling after the removal
  // ---------------------------------------------------------------------

  /**
   * The Delete handler removes the row and then asks for its parent, which
   * the removed row no longer has, so the relabelling never runs: after
   * deleting the first of two elements the one left is still labelled 1.
   */
  lemma {:induction false} DeleteLeavesStaleLabel()
    ensures var root := From(JArray([JNull, JNull]), None, 0);
      ValidPath(root, [0]) &&
      DeleteRow(root, [0]).children == [From(JNull, Some(Index(1)), 1)]
  {
    var root := From(JArray([JNull, JNull]), None, 0);
    assert root.children == [From(JNull, Some(Index(0)), 1), From(JNull, Some(Index(1)), 1)];
  }

  /** Delete as the handler means it: the row is taken out, and an array parent is relabelled as after Insert. */
  function DeleteRowRelabelled(root: Node, p: seq<nat>): Node
    requires ValidPath(root, p) && p != []
  {
    AtParent(root, p);
    var parent := At(root, Parent(p));
    Put(root, Parent(p), Relabel(parent.(children := RemoveAt(parent.children, Last(p)))))
  }

  /**
   * The intended Delete reads as the same value as the written one (an
   * array minus the element, an object without the pair), and an array's
   * children are labelled 0 .. n-1 in order.
   */
  lemma {:induction false} DeleteRelabels(root: Node, p: seq<nat>)
    requires ValidPath(root, p) && p != []
    ensures ValidPath(root, Parent(p))
    ensures ValidPath(DeleteRowRelabelled(root, p), Parent(p)) && ValidPath(DeleteRow(root, p), Parent(p))
    ensures Value(At(DeleteRowRelabelled(root, p), Parent(p))) == Value(At(DeleteRow(root, p), Parent(p)))
    ensures var q := At(DeleteRowRelabelled(root, p), Parent(p));
      At(root, Parent(p)).typeIndex == 1 ==>
        |q.children| == |At(root, Parent(p)).children| - 1 &&
        forall j :: 0 <= j < |q.children| ==> q.children[j].key == Some(Index(j))
  {
    AtParent(root, p);
    var parent := At(root, Parent(p));
    var removed := parent.(children := RemoveAt(parent.children, Last(p)));
    PutAt(root, Parent(p), removed);
    PutAt(root, Parent(p), Relabel(removed));
    RelabelValue(removed);
  }

  /** The intended Delete keeps the tree well formed. */
  lemma {:induction false} DeleteRelabelledWf(root: Node, p: seq<nat>)
    requires Wf(root) && ValidPath(root, p) && p != []
    ensures Wf(DeleteRowRelabelled(root, p))
  {
    ChildFits(root, p);
    AtParent(root, p);
    AtWf(root, Parent(p));
    var parent := At(root, Parent(p));
    var cs := RemoveAt(parent.children, Last(p));
    WfWithChildren(parent, cs);
    RelabelWf(parent.(children := cs));
    PutWfRoot(root, Parent(p), Relabel(parent.(children := cs)));
  }
}
