/**
 * The text replacer page: a list of literal replace-all steps, each
 * optionally wrapped in a shared prefix and suffix, applied to the text in
 * order; the options are normalised when loaded from JSON; and a gutter of
 * line numbers is built beside the text.
 */
module TextReplacer {
  import opened Wrappers
  import opened Decimal
  import opened JsonValue
  import opened JsonText

  // ---------------------------------------------------------------------
  // Literal replace-all, and split / join
  // ---------------------------------------------------------------------

  /** Whether `pat` occurs in `s` starting at `i`. */
  predicate OccursAt(s: string, pat: string, i: nat) {
    i + |pat| <= |s| && s[i..i + |pat|] == pat
  }

  /** Whether `pat` occurs anywhere in `s`. */
  predicate Occurs(s: string, pat: string) {
    exists i: nat :: i <= |s| && OccursAt(s, pat, i)
  }

  /** Every occurrence of `pat`, leftmost first and not overlapping, replaced by `rep` taken literally. */
  function ReplaceAll(s: string, pat: string, rep: string): string
    requires |pat| > 0
    decreases |s|
  {
    if |s| < |pat| then s
    else if s[..|pat|] == pat then rep + ReplaceAll(s[|pat|..], pat, rep)
    else [s[0]] + ReplaceAll(s[1..], pat, rep)
  }

  /** The pieces of `s` between the occurrences of `sep`, as String.prototype.split gives them. */
  function Split(s: string, sep: string): (r: seq<string>)
    requires |sep| > 0
    ensures |r| > 0
    decreases |s|
  {
    if |s| < |sep| then [s]
    else if s[..|sep|] == sep then [""] + Split(s[|sep|..], sep)
    else
      var rest := Split(s[1..], sep);
      [[s[0]] + rest[0]] + rest[1..]
  }

  /** The pieces written out with `sep` between each two, as Array.prototype.join gives them. */
  function Join(parts: seq<string>, sep: string): string
    requires |parts| > 0
  {
    if |parts| == 1 then parts[0] else parts[0] + sep + Join(parts[1..], sep)
  }

  /** Joining after the first piece gained a character in front gains that character in front. */
  lemma {:induction false} JoinConsHead(c: char, parts: seq<string>, sep: string)
    requires |parts| > 0
    ensures Join([[c] + parts[0]] + parts[1..], sep) == [c] + Join(parts, sep)
  {
    var q := [[c] + parts[0]] + parts[1..];
    assert q[1..] == parts[1..];
  }

  /** Replacing every occurrence is splitting at the occurrences and joining with the replacement. */
  lemma {:induction false} ReplaceAllIsSplitJoin(s: string, pat: string, rep: string)
    requires |pat| > 0
    ensures ReplaceAll(s, pat, rep) == Join(Split(s, pat), rep)
    decreases |s|
  {
    if |s| < |pat| {
    } else if s[..|pat|] == pat {
      ReplaceAllIsSplitJoin(s[|pat|..], pat, rep);
      var q := [""] + Split(s[|pat|..], pat);
      assert q[1..] == Split(s[|pat|..], pat);
    } else {
      ReplaceAllIsSplitJoin(s[1..], pat, rep);
      JoinConsHead(s[0], Split(s[1..], pat), rep);
    }
  }

  /** Without an occurrence of the pattern the text is left as it is. */
  lemma {:induction false} ReplaceAllAbsent(s: string, pat: string, rep: string)
    requires |pat| > 0 && !Occurs(s, pat)
    ensures ReplaceAll(s, pat, rep) == s
    decreases |s|
  {
    if |s| >= |pat| {
      assert !OccursAt(s, pat, 0);
      assert s[..|pat|] != pat;
      forall i: nat | OccursAt(s[1..], pat, i) ensures OccursAt(s, pat, i + 1) {
        assert s[1..][i..i + |pat|] == s[i + 1..i + 1 + |pat|];
      }
      ReplaceAllAbsent(s[1..], pat, rep);
      assert [s[0]] + s[1..] == s;
    }
  }

  /** Replacing a pattern by itself gives the text back. */
  lemma {:induction false} ReplaceAllSelf(s: string, pat: string)
    requires |pat| > 0
    ensures ReplaceAll(s, pat, pat) == s
    decreases |s|
  {
    if |s| >= |pat| {
      if s[..|pat|] == pat {
        ReplaceAllSelf(s[|pat|..], pat);
        assert s[..|pat|] + s[|pat|..] == s;
      } else {
        ReplaceAllSelf(s[1..], pat);
        assert [s[0]] + s[1..] == s;
      }
    }
  }

  // ---------------------------------------------------------------------
  // Line numbers
  // ---------------------------------------------------------------------

  /** How many line breaks `s` holds. */
  function Newlines(s: string): nat {
    if s == [] then 0 else (if s[0] == '\n' then 1 else 0) + Newlines(s[1..])
  }

  /** A text has one more line than it has line breaks. */
  lemma {:induction false} LineCount(s: string)
    ensures |Split(s, "\n")| == Newlines(s) + 1
    decreases |s|
  {
    if |s| >= 1 {
      LineCount(s[1..]);
      if s[..1] == "\n" {
        assert s[0] == '\n';
        assert s[1..] == s[|"\n"|..];
      } else {
        assert s[0] != '\n';
      }
    }
  }

  lemma {:induction false} NewlinesConcat(a: string, b: string)
    ensures Newlines(a + b) == Newlines(a) + Newlines(b)
    decreases |a|
  {
    if a != [] {
      assert (a + b)[1..] == a[1..] + b;
      NewlinesConcat(a[1..], b);
    } else {
      assert a + b == b;
    }
  }

  lemma {:induction false} NoNewlines(s: string)
    requires '\n' !in s
    ensures Newlines(s) == 0
    decreases |s|
  {
    if s != [] {
      assert s[0] in s;
      assert forall c :: c in s[1..] ==> c in s;
      NoNewlines(s[1..]);
    }
  }

  /** The gutter for `count` lines: "1\n2\n...count\n". */
  function Gutter(count: nat): string {
    if count == 0 then "" else Gutter(count - 1) + NatText(count) + "\n"
  }

  /** The line numbers beside a text: one number per line of the text, each on its own line. */
  method LineNumbers(text: string) returns (lineNumbers: string)
    ensures lineNumbers == Gutter(|Split(text, "\n")|)
  {
    var count := |Split(text, "\n")|;
    var number := 0;
    lineNumbers := "";
    while number < count
      invariant 0 <= number <= count
      invariant lineNumbers == Gutter(number)
    {
      number := number + 1;
      lineNumbers := lineNumbers + NatText(number) + "\n";
    }
  }

  /** The gutter for `count` lines has exactly `count` line breaks, so it is as tall as the text (plus an empty last line). */
  lemma {:induction false} GutterLines(count: nat)
    ensures Newlines(Gutter(count)) == count
  {
    if count > 0 {
      GutterLines(count - 1);
      NatTextHasNoNewline(count);
      NoNewlines(NatText(count));
      NewlinesConcat(Gutter(count - 1), NatText(count));
      NewlinesConcat(Gutter(count - 1) + NatText(count), "\n");
    }
  }

  /** The gutter beside a text with k line breaks numbers k + 1 lines. */
  lemma {:induction false} LineNumbersMatchText(text: string)
    ensures Newlines(Gutter(|Split(text, "\n")|)) == Newlines(text) + 1
  {
    LineCount(text);
    GutterLines(|Split(text, "\n")|);
  }

  // ---------------------------------------------------------------------
  // Replace list items and their normalisation
  // ---------------------------------------------------------------------

  datatype Item = Item(
    enablePatternPrefixAndSuffix: bool,
    enableReplacementPrefixAndSuffix: bool,
    pattern: string,
    replacement: string)

  /** The item a non-object gives: both wraps on, both texts empty. */
  const DefaultItem := Item(true, true, "", "")

  /** `value.name` on a parsed value: only an object has such a property, everything else reads `undefined`. */
  function Property(v: Json, name: string): Option<Json> {
    match v
    case JObject(ms) => Lookup(ms, name)
    case _ => None
  }

  /** A boolean as it is; anything else (absent included) reads as true. */
  function GetDefaultBoolean(v: Option<Json>): (b: bool)
    ensures v == Some(JTrue) || v == Some(JFalse) ==> b == (v == Some(JTrue))
    ensures b <==> v != Some(JFalse)
  {
    if v == Some(JFalse) then false else true
  }

  /** A string as it is; anything else (absent included) reads as the empty string. */
  function GetDefaultString(v: Option<Json>): (s: string)
    ensures v.Some? && v.value.JString? ==> s == v.value.str
    ensures !(v.Some? && v.value.JString?) ==> s == ""
  {
    match v
    case Some(JString(str)) => str
    case _ => ""
  }

  /** What `typeof v === "object"` holds of: objects, arrays and null. */
  predicate IsObjectType(v: Json) {
    v.JObject? || v.JArray? || v.JNull?
  }

  /**
   * createListItem as written: a value whose `typeof` is "object" has its
   * four fields read, which for null throws (None); anything else gives
   * the default item.
   */
  function CreateListItemAsWritten(item: Json): Option<Item> {
    if IsObjectType(item) then
      if item.JNull? then None
      else Some(Item(
        GetDefaultBoolean(Property(item, "enablePatternPrefixAndSuffix")),
        GetDefaultBoolean(Property(item, "enableReplacementPrefixAndSuffix")),
        GetDefaultString(Property(item, "pattern")),
        GetDefaultString(Property(item, "replacement"))))
    else Some(DefaultItem)
  }

  /** createListItem as intended: null is treated like any other value without fields. */
  function CreateListItem(item: Json): (r: Item)
    ensures !item.JObject? ==> r == DefaultItem
  {
    Item(
      GetDefaultBoolean(Property(item, "enablePatternPrefixAndSuffix")),
      GetDefaultBoolean(Property(item, "enableReplacementPrefixAndSuffix")),
      GetDefaultString(Property(item, "pattern")),
      GetDefaultString(Property(item, "replacement")))
  }

  /** A null list item makes the written createListItem throw; the intended one gives the default item. */
  lemma {:induction false} NullItemThrows()
    ensures CreateListItemAsWritten(JNull).None?
    ensures CreateListItem(JNull) == DefaultItem
  {
  }

  /** Apart from null the written and the intended createListItem agree. */
  lemma {:induction false} CreateListItemAgrees(item: Json)
    requires !item.JNull?
    ensures CreateListItemAsWritten(item) == Some(CreateListItem(item))
  {
  }

  /** An item as JSON.stringify writes it: its four fields in order. */
  function ItemJson(i: Item): Json {
    JObject([
      ("enablePatternPrefixAndSuffix", if i.enablePatternPrefixAndSuffix then JTrue else JFalse),
      ("enableReplacementPrefixAndSuffix", if i.enableReplacementPrefixAndSuffix then JTrue else JFalse),
      ("pattern", JString(i.pattern)),
      ("replacement", JString(i.replacement))])
  }

  /** Reading an item back from its JSON gives the item. */
  lemma {:induction false} ItemRoundTrip(i: Item)
    ensures CreateListItem(ItemJson(i)) == i
    ensures WellFormed(ItemJson(i))
  {
    var ms := ItemJson(i).members;
    assert DistinctNames(ms);
    LookupDistinct(ms, 0);
    LookupDistinct(ms, 1);
    LookupDistinct(ms, 2);
    LookupDistinct(ms, 3);
  }

  /** Whether an item is kept when options are loaded or saved: it differs from the default in some field. */
  predicate Keep(item: Item) {
    |item.pattern| > 0 || !item.enablePatternPrefixAndSuffix ||
    |item.replacement| > 0 || !item.enableReplacementPrefixAndSuffix
  }

  /** Exactly the default item is dropped. */
  lemma {:induction false} KeepIffNotDefault(item: Item)
    ensures Keep(item) <==> item != DefaultItem
  {
  }

  /** The kept items, in their order. */
  function KeepItems(items: seq<Item>): (r: seq<Item>)
    ensures |r| <= |items|
    ensures forall i :: 0 <= i < |r| ==> Keep(r[i])
    ensures forall x :: x in r <==> x in items && Keep(x)
  {
    if items == [] then []
    else if Keep(items[0]) then [items[0]] + KeepItems(items[1..])
    else KeepItems(items[1..])
  }

  /** Filtering kept items again changes nothing. */
  lemma {:induction false} KeepItemsIdempotent(items: seq<Item>)
    ensures KeepItems(KeepItems(items)) == KeepItems(items)
  {
    if items != [] {
      KeepItemsIdempotent(items[1..]);
      if Keep(items[0]) {
        var r := [items[0]] + KeepItems(items[1..]);
        assert r[0] == items[0] && r[1..] == KeepItems(items[1..]);
      }
    }
  }

  /** Every item of the list is kept exactly when filtering leaves it alone. */
  lemma {:induction false} KeepItemsAllKept(items: seq<Item>)
    requires forall i :: 0 <= i < |items| ==> Keep(items[i])
    ensures KeepItems(items) == items
  {
    if items != [] {
      KeepItemsAllKept(items[1..]);
      assert [items[0]] + items[1..] == items;
    }
  }

  /** The list read from an options file: an array's elements normalised and then filtered; anything else gives no items. */
  function LoadList(list: Option<Json>): seq<Item> {
    match list
    case Some(JArray(es)) => KeepItems(seq(|es|, i requires 0 <= i < |es| => CreateListItem(es[i])))
    case _ => []
  }

  /** The options list the page starts with and a reset gives: eight default items (createListItem of `true`). */
  function ResetList(): (r: seq<Item>)
    ensures |r| == 8 && forall i :: 0 <= i < 8 ==> r[i] == DefaultItem
  {
    seq(8, _ => CreateListItem(JTrue))
  }

  /** A list none of whose items is kept filters to nothing. */
  lemma {:induction false} KeepNone(items: seq<Item>)
    requires forall i :: 0 <= i < |items| ==> !Keep(items[i])
    ensures KeepItems(items) == []
  {
    if items != [] {
      KeepNone(items[1..]);
    }
  }

  /** Saving a fresh or reset list writes no items. */
  lemma {:induction false} ResetListSavesNothing()
    ensures KeepItems(ResetList()) == []
  {
    KeepNone(ResetList());
  }

  // ---------------------------------------------------------------------
  // Options files
  // ---------------------------------------------------------------------

  datatype Options = Options(
    patternPrefix: string,
    patternSuffix: string,
    replacementPrefix: string,
    replacementSuffix: string,
    list: seq<Item>)

  datatype LoadError = SyntaxError | TypeError

  /**
   * The options read from a file's text: a syntax error, or null (which
   * cannot be destructured), fails; any other value gives each field
   * defaulted on its own.
   */
  function ReadOptions(text: string): (r: Result<Options, LoadError>)
    ensures Parse(text).None? ==> r == Err(SyntaxError)
    ensures Parse(text) == Some(JNull) ==> r == Err(TypeError)
    ensures r.Ok? ==> forall i :: 0 <= i < |r.value.list| ==> Keep(r.value.list[i])
  {
    match Parse(text)
    case None => Err(SyntaxError)
    case Some(JNull) => Err(TypeError)
    case Some(v) => Ok(Options(
      GetDefaultString(Property(v, "patternPrefix")),
      GetDefaultString(Property(v, "patternSuffix")),
      GetDefaultString(Property(v, "replacementPrefix")),
      GetDefaultString(Property(v, "replacementSuffix")),
      LoadList(Property(v, "list"))))
  }

  /** A list value holding a null item, on which the written createListItem throws. */
  predicate HasNullItem(list: Option<Json>) {
    list.Some? && list.value.JArray? && JNull in list.value.elements
  }

  /** A file whose list holds a null item. */
  predicate NullItemIn(text: string) {
    Parse(text).Some? && HasNullItem(Property(Parse(text).value, "list"))
  }

  /** The items of a list as the written createListItem maps them: None once one of them throws. */
  function MapItemsAsWritten(es: seq<Json>): (r: Option<seq<Item>>)
    ensures r.None? <==> JNull in es
    ensures r.Some? ==> r.value == seq(|es|, i requires 0 <= i < |es| => CreateListItem(es[i]))
    decreases |es|
  {
    if es == [] then Some([])
    else
      assert es == [es[0]] + es[1..];
      match (CreateListItemAsWritten(es[0]), MapItemsAsWritten(es[1..]))
      case (Some(x), Some(xs)) =>
        CreateListItemAgrees(es[0]);
        Some([x] + xs)
      case _ => None
  }

  /** The list the written loadOptions assigns: None when an item throws, otherwise the intended list. */
  function LoadListAsWritten(list: Option<Json>): (r: Option<seq<Item>>)
    ensures r.None? <==> HasNullItem(list)
    ensures r.Some? ==> r.value == LoadList(list)
  {
    match list
    case Some(JArray(es)) =>
      (match MapItemsAsWritten(es)
       case Some(items) => Some(KeepItems(items))
       case None => None)
    case _ => Some([])
  }

  /** The page after loading a file: its options, its options name, and the error alerted if any. */
  datatype Loaded = Loaded(options: Options, name: string, error: Option<LoadError>)

  /**
   * loadOptions as written, from options `o` and options name `current`:
   * parsing and destructuring fail before anything is assigned; after
   * them the name and the four wrap texts are assigned one by one, and a
   * null list item throws before the list is.
   */
  function LoadAsWritten(o: Options, current: string, name: string, text: string): Loaded {
    match Parse(text)
    case None => Loaded(o, current, Some(SyntaxError))
    case Some(JNull) => Loaded(o, current, Some(TypeError))
    case Some(v) =>
      var wraps := o.(
        patternPrefix := GetDefaultString(Property(v, "patternPrefix")),
        patternSuffix := GetDefaultString(Property(v, "patternSuffix")),
        replacementPrefix := GetDefaultString(Property(v, "replacementPrefix")),
        replacementSuffix := GetDefaultString(Property(v, "replacementSuffix")));
      match LoadListAsWritten(Property(v, "list"))
      case None => Loaded(wraps, name, Some(TypeError))
      case Some(items) => Loaded(wraps.(list := items), name, None)
  }

  /**
   * Without a null list item, loading as written is ReadOptions: on success
   * the options and name are replaced, on failure nothing changes. With one,
   * the name and wraps change as ReadOptions says, the list stays and a
   * TypeError is alerted.
   */
  lemma {:induction false} LoadAsWrittenVsRead(o: Options, current: string, name: string, text: string)
    ensures !NullItemIn(text) && ReadOptions(text).Ok? ==>
      LoadAsWritten(o, current, name, text) == Loaded(ReadOptions(text).value, name, None)
    ensures !NullItemIn(text) && ReadOptions(text).Err? ==>
      LoadAsWritten(o, current, name, text) == Loaded(o, current, Some(ReadOptions(text).error))
    ensures NullItemIn(text) ==>
      ReadOptions(text).Ok? &&
      LoadAsWritten(o, current, name, text) == Loaded(ReadOptions(text).value.(list := o.list), name, Some(TypeError))
  {
  }

  /** A file's value with a pattern prefix and a list holding one null item. */
  function NullItemFile(): Json {
    JObject([("patternPrefix", JString("a")), ("list", JArray([JNull]))])
  }

  /** Loading a file that parses to NullItemFile, as written and as intended. */
  lemma {:induction false} NullItemFileLoads(o: Options, current: string, name: string, text: string)
    requires Parse(text) == Some(NullItemFile())
    ensures LoadAsWritten(o, current, name, text) ==
      Loaded(o.(patternPrefix := "a", patternSuffix := "", replacementPrefix := "", replacementSuffix := ""),
        name, Some(TypeError))
    ensures ReadOptions(text) == Ok(Options("a", "", "", "", []))
  {
    var v := NullItemFile();
    assert Property(v, "patternPrefix") == Some(JString("a"));
    assert Property(v, "list") == Some(JArray([JNull]));
    assert HasNullItem(Property(v, "list"));
    var es := [JNull];
    var items := seq(|es|, i requires 0 <= i < |es| => CreateListItem(es[i]));
    assert items[0] == CreateListItem(es[0]) == DefaultItem;
    assert items == [DefaultItem];
    assert KeepItems(items) == [];
  }

  /**
   * The file `{"patternPrefix":"a","list":[null]}`: as written the name and
   * wraps are taken from it, the list stays and a TypeError is alerted;
   * as intended it loads with an empty list.
   */
  lemma {:induction false} NullItemLoadAsWritten(o: Options, current: string, name: string)
    ensures LoadAsWritten(o, current, name, Stringify(NullItemFile())) ==
      Loaded(o.(patternPrefix := "a", patternSuffix := "", replacementPrefix := "", replacementSuffix := ""),
        name, Some(TypeError))
    ensures ReadOptions(Stringify(NullItemFile())) == Ok(Options("a", "", "", "", []))
  {
    var v := NullItemFile();
    assert DistinctNames(v.members);
    assert WellFormed(v);
    ParseStringify(v);
    NullItemFileLoads(o, current, name, Stringify(v));
  }

  /** The JSON value saveOptions writes: the kept items and the four wrap texts. */
  function OptionsJson(o: Options): Json {
    var kept := KeepItems(o.list);
    JObject([
      ("list", JArray(seq(|kept|, i requires 0 <= i < |kept| => ItemJson(kept[i])))),
      ("patternPrefix", JString(o.patternPrefix)),
      ("patternSuffix", JString(o.patternSuffix)),
      ("replacementPrefix", JString(o.replacementPrefix)),
      ("replacementSuffix", JString(o.replacementSuffix))])
  }

  /** The text of a saved options file. */
  function SaveText(o: Options): string {
    Stringify(OptionsJson(o))
  }

  /** The saved value is one JSON.parse could give. */
  lemma {:induction false} OptionsJsonWellFormed(o: Options)
    ensures WellFormed(OptionsJson(o))
  {
    var kept := KeepItems(o.list);
    var es := seq(|kept|, i requires 0 <= i < |kept| => ItemJson(kept[i]));
    forall i | 0 <= i < |es| ensures WellFormed(es[i]) {
      ItemRoundTrip(kept[i]);
    }
    assert WellFormed(JArray(es));
  }

  /** Reading the items written for a kept list gives that list back. */
  lemma {:induction false} LoadSavedList(kept: seq<Item>)
    requires forall i :: 0 <= i < |kept| ==> Keep(kept[i])
    ensures LoadList(Some(JArray(seq(|kept|, i requires 0 <= i < |kept| => ItemJson(kept[i]))))) == kept
  {
    var es := seq(|kept|, i requires 0 <= i < |kept| => ItemJson(kept[i]));
    var items := seq(|es|, i requires 0 <= i < |es| => CreateListItem(es[i]));
    forall i | 0 <= i < |kept| ensures items[i] == kept[i] {
      ItemRoundTrip(kept[i]);
    }
    assert items == kept;
    KeepItemsAllKept(kept);
  }

  /** Loading a saved file restores the wrap texts and the list with its default items dropped. */
  lemma {:induction false} SaveThenLoad(o: Options)
    ensures ReadOptions(SaveText(o)) == Ok(o.(list := KeepItems(o.list)))
  {
    var v := OptionsJson(o);
    OptionsJsonWellFormed(o);
    ParseStringify(v);
    LoadSavedList(KeepItems(o.list));
    var ms := v.members;
    LookupDistinct(ms, 0);
    LookupDistinct(ms, 1);
    LookupDistinct(ms, 2);
    LookupDistinct(ms, 3);
    LookupDistinct(ms, 4);
  }

  // ---------------------------------------------------------------------
  // The replace fold
  // ---------------------------------------------------------------------

  /** The text searched for: the pattern, wrapped in the prefix and suffix when the item says so. */
  function PatternText(item: Item, prefix: string, suffix: string): (r: string)
    ensures item.enablePatternPrefixAndSuffix ==> (
      |r| == |prefix| + |item.pattern| + |suffix| &&
      r[..|prefix|] == prefix && OccursAt(r, item.pattern, |prefix|) &&
      r[|prefix| + |item.pattern|..] == suffix)
    ensures !item.enablePatternPrefixAndSuffix ==> r == item.pattern
  {
    if item.enablePatternPrefixAndSuffix then prefix + item.pattern + suffix else item.pattern
  }

  /** The text put in its place, wrapped the same way when the item says so. */
  function ReplacementText(item: Item, prefix: string, suffix: string): string {
    if item.enableReplacementPrefixAndSuffix then prefix + item.replacement + suffix else item.replacement
  }

  /** The items with a non-empty pattern, in their order. */
  function Active(items: seq<Item>): (r: seq<Item>)
    ensures |r| <= |items|
    ensures forall i :: 0 <= i < |r| ==> |r[i].pattern| > 0
  {
    if items == [] then []
    else if |items[0].pattern| > 0 then [items[0]] + Active(items[1..])
    else Active(items[1..])
  }

  /** The replace-all steps of `items` applied one after another, the first item first. */
  function Fold(text: string, items: seq<Item>, o: Options): string
    requires forall i :: 0 <= i < |items| ==> |items[i].pattern| > 0
    decreases |items|
  {
    if items == [] then text
    else
      var item := items[0];
      Fold(ReplaceAll(text, PatternText(item, o.patternPrefix, o.patternSuffix),
        ReplacementText(item, o.replacementPrefix, o.replacementSuffix)), items[1..], o)
  }

  /** The text after Replace: the active items' steps in list order. */
  function Replaced(text: string, o: Options): string {
    Fold(text, Active(o.list), o)
  }

  /** A list whose patterns are all empty has no active item. */
  lemma {:induction false} NoneActive(items: seq<Item>)
    requires forall i :: 0 <= i < |items| ==> items[i].pattern == ""
    ensures Active(items) == []
  {
    if items != [] {
      NoneActive(items[1..]);
    }
  }

  /** Steps over a concatenated list: the first part's steps, then the second's. */
  lemma {:induction false} FoldConcat(text: string, a: seq<Item>, b: seq<Item>, o: Options)
    requires forall i :: 0 <= i < |a| ==> |a[i].pattern| > 0
    requires forall i :: 0 <= i < |b| ==> |b[i].pattern| > 0
    ensures forall i :: 0 <= i < |a + b| ==> |(a + b)[i].pattern| > 0
    ensures Fold(text, a + b, o) == Fold(Fold(text, a, o), b, o)
    decreases |a|
  {
    if a != [] {
      assert (a + b)[0] == a[0] && (a + b)[1..] == a[1..] + b;
      var item := a[0];
      FoldConcat(ReplaceAll(text, PatternText(item, o.patternPrefix, o.patternSuffix),
        ReplacementText(item, o.replacementPrefix, o.replacementSuffix)), a[1..], b, o);
    } else {
      assert a + b == b;
    }
  }

  lemma {:induction false} ActiveConcat(a: seq<Item>, b: seq<Item>)
    ensures Active(a + b) == Active(a) + Active(b)
    decreases |a|
  {
    if a != [] {
      assert (a + b)[0] == a[0] && (a + b)[1..] == a[1..] + b;
      ActiveConcat(a[1..], b);
    } else {
      assert a + b == b;
    }
  }

  /** Replace processes the list in order: the steps of a first part, then those of the rest. */
  lemma {:induction false} ReplacedInOrder(text: string, o: Options, a: seq<Item>, b: seq<Item>)
    requires o.list == a + b
    ensures Replaced(text, o) == Fold(Fold(text, Active(a), o), Active(b), o)
  {
    ActiveConcat(a, b);
    FoldConcat(text, Active(a), Active(b), o);
  }

  /** One active item is one replace-all of its wrapped pattern by its wrapped replacement. */
  lemma {:induction false} ReplacedSingle(text: string, o: Options)
    requires |o.list| == 1 && |o.list[0].pattern| > 0
    ensures var item := o.list[0];
      Replaced(text, o) == ReplaceAll(text, PatternText(item, o.patternPrefix, o.patternSuffix),
        ReplacementText(item, o.replacementPrefix, o.replacementSuffix))
  {
    var item := o.list[0];
    assert o.list == [item] && Active(o.list) == [item];
    var t := ReplaceAll(text, PatternText(item, o.patternPrefix, o.patternSuffix),
      ReplacementText(item, o.replacementPrefix, o.replacementSuffix));
    assert [item][1..] == [];
    assert Fold(text, [item], o) == Fold(t, [], o) == t;
  }

  /** With every pattern empty, Replace leaves the text as it is. */
  lemma {:induction false} ReplacedNoPatterns(text: string, o: Options)
    requires forall i :: 0 <= i < |o.list| ==> o.list[i].pattern == ""
    ensures Replaced(text, o) == text
  {
    NoneActive(o.list);
  }

  /** An item whose wrapped pattern never occurs in the running text changes nothing. */
  lemma {:induction false} FoldSkipsAbsent(text: string, item: Item, rest: seq<Item>, o: Options)
    requires |item.pattern| > 0 && forall i :: 0 <= i < |rest| ==> |rest[i].pattern| > 0
    requires !Occurs(text, PatternText(item, o.patternPrefix, o.patternSuffix))
    ensures Fold(text, [item] + rest, o) == Fold(text, rest, o)
  {
    ReplaceAllAbsent(text, PatternText(item, o.patternPrefix, o.patternSuffix),
      ReplacementText(item, o.replacementPrefix, o.replacementSuffix));
    assert ([item] + rest)[1..] == rest;
  }

  // ---------------------------------------------------------------------
  // The page's state
  // ---------------------------------------------------------------------

  class Replacer {
    var text: string
    var originalText: seq<string>
    var patternPrefix: string
    var patternSuffix: string
    var replacementPrefix: string
    var replacementSuffix: string
    var list: seq<Item>
    var optionsName: string

    /** The options as saveOptions and replace read them. */
    function Current(): Options
      reads this
    {
      Options(patternPrefix, patternSuffix, replacementPrefix, replacementSuffix, list)
    }

    /** The page starts with no text, no history, empty wraps and eight default items. */
    constructor ()
      ensures text == "" && originalText == []
      ensures Current() == Options("", "", "", "", ResetList())
      ensures optionsName == "options.json"
    {
      text := "";
      originalText := [];
      patternPrefix := "";
      patternSuffix := "";
      replacementPrefix := "";
      replacementSuffix := "";
      list := ResetList();
      optionsName := "options.json";
    }

    /** Replace: the text before is pushed on the history, and the text becomes the replaced text. */
    method Replace()
      modifies this
      ensures originalText == old(originalText) + [old(text)]
      ensures text == Replaced(old(text), old(Current()))
      ensures Current() == old(Current()) && optionsName == old(optionsName)
    {
      originalText := originalText + [text];
      text := Replaced(text, Current());
    }

    /** Reset: empty wraps and eight default items; the text and history stay. */
    method ResetOptions()
      modifies this
      ensures Current() == Options("", "", "", "", ResetList())
      ensures text == old(text) && originalText == old(originalText) && optionsName == old(optionsName)
    {
      patternPrefix := "";
      patternSuffix := "";
      replacementPrefix := "";
      replacementSuffix := "";
      list := ResetList();
    }

    /**
     * loadOptions on a file named `name` with text `fileText`, as written:
     * the page ends as LoadAsWritten says, so a field the source would
     * assign only after a throw keeps its value; the text and history stay.
     */
    method LoadOptions(name: string, fileText: string) returns (error: Option<LoadError>)
      modifies this
      ensures Loaded(Current(), optionsName, error) == LoadAsWritten(old(Current()), old(optionsName), name, fileText)
      ensures text == old(text) && originalText == old(originalText)
    {
      var r := LoadAsWritten(Current(), optionsName, name, fileText);
      optionsName := r.name;
      patternPrefix := r.options.patternPrefix;
      patternSuffix := r.options.patternSuffix;
      replacementPrefix := r.options.replacementPrefix;
      replacementSuffix := r.options.replacementSuffix;
      list := r.options.list;
      error := r.error;
    }

    /** The text saveOptions downloads. */
    function SaveOptionsText(): string
      reads this
    {
      SaveText(Current())
    }
  }
}
