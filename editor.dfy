/**
 * The tree page as it runs: the tree of rows and the one editing card.
 * Each click handler is a method; the card's OK either commits the whole
 * edit or changes nothing and leaves the card open.
 */
module TreePage {
  import opened Wrappers
  import opened JsonValue
  import opened TreeModel
  import opened EditSession

  class Editor {
    var root: Node
    var card: Card

    /** The tree is well formed and an open card suits it. */
    predicate Valid()
      reads this
    {
      Wf(root) && CardOk(root, card)
    }

    /** A page showing `v`: the root row has no label and sits at level 0, and no card is open. */
    constructor (v: Json)
      requires WellFormed(v)
      ensures Valid() && root == From(v, None, 0) && card == Closed
      ensures Value(root) == Some(v)
    {
      root := From(v, None, 0);
      card := Closed;
      WfFrom(v, None, 0);
      ValueFrom(v, None, 0);
    }

    /** The Edit icon of a row opens the card on that row. */
    method OpenEdit(p: seq<nat>)
      requires Valid() && ValidPath(root, p)
      modifies this
      ensures Valid() && root == old(root)
      ensures At(root, p).typeIndex < |ElementTypes|
      ensures card == Open(EditMode, p, EditDraft(At(root, p)))
    {
      OpenEditOk(root, p);
      card := Open(EditMode, p, EditDraft(At(root, p)));
    }

    /** The Insert icon of a labelled row opens the card for a new row before it. */
    method OpenInsert(p: seq<nat>)
      requires Valid() && ValidPath(root, p) && p != []
      modifies this
      ensures Valid() && root == old(root)
      ensures At(root, p).typeIndex < |ElementTypes| && At(root, p).key.Some?
      ensures card == Open(InsertMode, p, InsertDraft(At(root, p)))
    {
      OpenInsertOk(root, p);
      card := Open(InsertMode, p, InsertDraft(At(root, p)));
    }

    /** The Add icon of a container opens the card for a new last child. */
    method OpenAdd(p: seq<nat>)
      requires Valid() && ValidPath(root, p) && IsCollection(At(root, p).typeIndex)
      modifies this
      ensures Valid() && root == old(root)
      ensures (forall i :: 0 <= i < |At(root, p).children| ==> At(root, p).children[i].typeIndex < |ElementTypes|)
      ensures card == Open(AddMode, p, AddDraft(At(root, p)))
    {
      OpenAddOk(root, p);
      card := Open(AddMode, p, AddDraft(At(root, p)));
    }

    /** Choosing a type in the open card. */
    method ChooseType(t: nat)
      requires Valid() && card.Open? && t < |ElementTypes|
      modifies this
      ensures Valid() && root == old(root)
      ensures card == old(card).(draft := SelectType(old(card).draft, t))
    {
      DraftStepsOk(root, card, t, "");
      card := card.(draft := SelectType(card.draft, t));
    }

    /** Typing into the name input of the open card. */
    method TypeName(s: string)
      requires Valid() && card.Open?
      modifies this
      ensures Valid() && root == old(root)
      ensures card == old(card).(draft := EditName(old(card).draft, s))
    {
      DraftStepsOk(root, card, 0, s);
      card := card.(draft := EditName(card.draft, s));
    }

    /** Typing into the value input of the open card. */
    method TypeValue(s: string)
      requires Valid() && card.Open?
      modifies this
      ensures Valid() && root == old(root)
      ensures card == old(card).(draft := EditValue(old(card).draft, s))
    {
      DraftStepsOk(root, card, 0, s);
      card := card.(draft := EditValue(card.draft, s));
    }

    /**
     * OK (or Enter while the card is shown): on success the tree becomes
     * the committed tree and the card closes; on failure the error is
     * reported and neither the tree nor the card changes.
     */
    method Confirm() returns (error: Option<EditError>)
      requires Valid() && card.Open?
      modifies this
      ensures Valid()
      ensures Commit(old(root), old(card)).Ok? ==>
        error.None? && root == Commit(old(root), old(card)).value && card == Closed
      ensures Commit(old(root), old(card)).Err? ==>
        error == Some(Commit(old(root), old(card)).error) && root == old(root) && card == old(card)
    {
      CommitWf(root, card);
      match Commit(root, card)
      case Ok(r) =>
        root := r;
        card := Closed;
        error := None;
      case Err(e) =>
        error := Some(e);
    }

    /** The close button, or any click outside the card: the card closes and the tree stays. */
    method Cancel()
      requires Valid()
      modifies this
      ensures Valid() && root == old(root) && card == Closed
    {
      card := Closed;
    }

    /**
     * The Delete icon of a labelled row, as written: the row goes, its
     * siblings keep their labels (DeleteLeavesStaleLabel), and the click
     * reaching the page closes any open card.
     */
    method Delete(p: seq<nat>)
      requires Valid() && ValidPath(root, p) && p != []
      modifies this
      ensures Valid() && card == Closed
      ensures root == DeleteRow(old(root), p)
    {
      DeleteWf(root, p);
      root := DeleteRow(root, p);
      card := Closed;
    }
  }
}
