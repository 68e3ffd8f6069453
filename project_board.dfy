/** The review-board script fr-add-docs-reviewers-requests.js: choosing the open pull requests
    that wait for a docs review, resolving the board's field and option ids, and building the
    two batched GraphQL mutations that add the pull requests to the board and fill in their
    fields. Mutations are built as sequences of aliased records and then serialised exactly
    as the script's template strings lay them out. */
module ProjectBoard {
  import opened Wrappers
  import opened Strings
  import opened Seqs
  import opened Calendar
  import opened GitHub

  // ---------------------------------------------------------------------------------------
  // addItemsToProject: one aliased `addProjectNextItem` per item

  /** One `addProjectNextItem` sub-operation: its alias and the content id it adds. */
  datatype AddItem = AddItem(alias: string, contentId: string)

  function ItemAlias(index: nat): string {
    "pr_" + NatToString(index)
  }

  function AddItemOps(items: seq<string>): seq<AddItem> {
    seq(|items|, i requires 0 <= i < |items| => AddItem(ItemAlias(i), items[i]))
  }

  function AddItemCall(alias: string): string {
    alias + ": addProjectNextItem(input: {"
  }

  /** The item's id, quoted. */
  function ContentLine(contentId: string): string {
    "contentId: \"" + contentId + "\""
  }

  const AddItemMid := "\n      projectId: $project\n      "
  const AddItemTail := "\n    }) {\n      projectNextItem {\n        id\n      }\n    }\n    "

  function RenderAddItem(op: AddItem): string {
    "\n    " + AddItemCall(op.alias) + AddItemMid + ContentLine(op.contentId) + AddItemTail
  }

  function AddItemsMutation(items: seq<string>): string {
    var ops := AddItemOps(items);
    "\n  mutation($project:ID!) {\n    "
    + Join(seq(|ops|, i requires 0 <= i < |ops| => RenderAddItem(ops[i])), " ")
    + "\n  }\n  "
  }

  lemma ItemAliasInjective(i: nat, j: nat)
    ensures ItemAlias(i) == ItemAlias(j) ==> i == j
  {
    assert ItemAlias(i)[3..] == NatToString(i);
    assert ItemAlias(j)[3..] == NatToString(j);
    NatToStringInjective(i, j);
  }

  /** N items give exactly N sub-operations, aliased `pr_0` .. `pr_{N-1}` in input order,
      each adding its own item, and no two of them share an alias. */
  lemma AddItemOpsAliases(items: seq<string>)
    ensures |AddItemOps(items)| == |items|
    ensures forall i :: 0 <= i < |items| ==>
      AddItemOps(items)[i].alias == "pr_" + NatToString(i) && AddItemOps(items)[i].contentId == items[i]
    ensures forall i, j :: 0 <= i < j < |items| ==> AddItemOps(items)[i].alias != AddItemOps(items)[j].alias
  {
    forall i, j | 0 <= i < j < |items|
      ensures AddItemOps(items)[i].alias != AddItemOps(items)[j].alias
    {
      ItemAliasInjective(i, j);
    }
  }

  /** The text of the outer mutation contains the text of every sub-operation. */
  lemma AddItemsMutationHolds(items: seq<string>, i: nat) returns (at: nat)
    requires i < |items|
    ensures MatchesAt(AddItemsMutation(items), RenderAddItem(AddItem(ItemAlias(i), items[i])), at)
  {
    var ops := AddItemOps(items);
    var parts := seq(|ops|, k requires 0 <= k < |ops| => RenderAddItem(ops[k]));
    var head, tail := "\n  mutation($project:ID!) {\n    ", "\n  }\n  ";
    var inner := JoinContains(parts, " ", i);
    at := MatchesInMiddle(head, Join(parts, " "), tail, parts[i], inner);
  }

  /** The serialised mutation carries, for every item, its aliased `addProjectNextItem` call
      and the item's id in quotes. */
  lemma AddItemsMutationEmbedsItems(items: seq<string>, i: nat)
    requires i < |items|
    ensures Contains(AddItemsMutation(items), "pr_" + NatToString(i) + ": addProjectNextItem(input: {")
    ensures Contains(AddItemsMutation(items), "contentId: \"" + items[i] + "\"")
  {
    var call, quoted := AddItemCall(ItemAlias(i)), ContentLine(items[i]);
    var at := AddItemsMutationHolds(items, i);
    var p1, p2 := MatchesTwoParts("\n    ", call, AddItemMid, quoted, AddItemTail);
    var q1 := MatchesWithin(AddItemsMutation(items), RenderAddItem(AddItem(ItemAlias(i), items[i])), call, at, p1);
    var q2 := MatchesWithin(AddItemsMutation(items), RenderAddItem(AddItem(ItemAlias(i), items[i])), quoted, at, p2);
  }

  /** One entry of the mutation's answer: the alias and the id of the new project item. */
  datatype AddedItem = AddedItem(alias: string, itemId: string)

  /** `Object.entries(newItems).map(item => item[1].projectNextItem.id)`: the new item ids in
      the order the answer lists its entries. */
  function NewItemIds(answer: seq<AddedItem>): seq<string> {
    seq(|answer|, i requires 0 <= i < |answer| => answer[i].itemId)
  }

  /** When the answer lists one entry per sub-operation in the order of the request, the i-th
      new id is the one answered for alias `pr_i` (that is, for the i-th input item), and no
      other entry carries that alias. */
  lemma NewItemIdsFollowInputOrder(items: seq<string>, answer: seq<AddedItem>)
    requires |answer| == |items|
    requires forall i :: 0 <= i < |answer| ==> answer[i].alias == AddItemOps(items)[i].alias
    ensures |NewItemIds(answer)| == |items|
    ensures forall i, j :: 0 <= i < |items| && 0 <= j < |answer| && answer[j].alias == ItemAlias(i) ==>
      j == i && NewItemIds(answer)[i] == answer[j].itemId
  {
    forall i, j | 0 <= i < |items| && 0 <= j < |answer| && answer[j].alias == ItemAlias(i)
      ensures j == i
    {
      ItemAliasInjective(i, j);
    }
  }

  // ---------------------------------------------------------------------------------------
  // generateUpdateProjectNextItemFieldMutation: six aliased field updates per item

  /** A field value is either a quoted literal string or a bare reference to a variable that
      the mutation declares (`$readyForReviewID`, `$hubberTypeID`). */
  datatype Value = Literal(text: string) | Reference(text: string)

  /** The `value:` line of `generateMutation`; literal text is put between quotes unescaped. */
  function RenderValue(v: Value): string {
    match v
    case Literal(t) => "value: \"" + t + "\""
    case Reference(t) => "value: " + t
  }

  /** Reads a `value:` line back: text between quotes is a literal, anything else a reference. */
  function ParseValue(s: string): Option<Value> {
    if !StartsWith(s, "value: ") then None
    else
      var t := s[7..];
      if |t| >= 2 && t[0] == '"' && t[|t| - 1] == '"' then Some(Literal(t[1..|t| - 1]))
      else Some(Reference(t))
  }

  /** A reference names a GraphQL variable. */
  predicate IsVariable(t: string) {
    StartsWith(t, "$")
  }

  /** The value is quoted exactly when it is a literal: reading the rendered line back gives the
      value and its kind. */
  lemma ValueRoundTrip(v: Value)
    requires v.Reference? ==> IsVariable(v.text)
    ensures ParseValue(RenderValue(v)) == Some(v)
  {
    var s := RenderValue(v);
    assert StartsWith(s, "value: ") by { assert s[..7] == "value: "; }
    var t := s[7..];
    match v
    case Literal(x) =>
      assert t == "\"" + x + "\"";
      assert t[1..|t| - 1] == x;
    case Reference(x) =>
      assert t == x;
      assert t[0] == '$';
  }

  /** One `updateProjectNextItemField` sub-operation. */
  datatype FieldUpdate = FieldUpdate(alias: string, itemId: string, fieldId: string, value: Value)

  /** `fieldID.substr(1)`. */
  function DropFirst(s: string): string {
    if s == [] then [] else s[1..]
  }

  function UpdateAlias(fieldId: string, index: nat): string {
    "set_" + DropFirst(fieldId) + "_item_" + NatToString(index)
  }

  /** `generateMutation`, as the record it describes. */
  function GenerateMutation(index: nat, item: string, fieldId: string, value: Value): FieldUpdate {
    FieldUpdate(UpdateAlias(fieldId, index), item, fieldId, value)
  }

  function RenderFieldUpdate(u: FieldUpdate): string {
    "\n      " + u.alias + ": updateProjectNextItemField(input: {\n        projectId: $project\n        "
    + "itemId: \"" + u.itemId + "\"" + "\n        fieldId: " + u.fieldId + "\n        " + RenderValue(u.value)
    + "\n      }) {\n      projectNextItem {\n        id\n      }\n    }\n    "
  }

  /** The stems of the six field variables, in the order the script emits the fields. */
  function FieldStem(k: nat): (stem: string)
    requires k < 6
    ensures '_' !in stem
  {
    if k == 0 then "statusID"
    else if k == 1 then "datePostedID"
    else if k == 2 then "reviewDueDateID"
    else if k == 3 then "contributorTypeID"
    else if k == 4 then "featureID"
    else "authorID"
  }

  /** The fields each item gets, as their `$` variables, in the order the script emits them. */
  const FieldOrder: seq<string> := seq(6, k requires 0 <= k < 6 => "$" + FieldStem(k))

  const ReadyForReviewVar := "$readyForReviewID"
  const HubberTypeVar := "$hubberTypeID"
  const FeatureText := "OpenAPI schema update"

  /** The `switch (datePosted.getDay())` of the script. */
  function DaysUntilDue(weekday: nat): nat {
    if weekday == Sunday then 3 else if weekday == Saturday then 4 else 2
  }

  function DueDate(posted: Date): Date
    requires Valid(posted)
  {
    AddDays(posted, DaysUntilDue(posted.weekday))
  }

  /** The due date is 3 whole days after a Sunday, 4 after a Saturday and 2 after any other
      day; a Thursday or Friday posting therefore falls due on a Saturday or a Sunday. */
  lemma DueDateOffset(posted: Date)
    requires Valid(posted)
    ensures DayNumber(DueDate(posted)) == DayNumber(posted)
              + (if posted.weekday == 0 then 3 else if posted.weekday == 6 then 4 else 2)
    ensures DueDate(posted).weekday == (if posted.weekday == 0 || posted.weekday == 6 then 3
                                        else (posted.weekday + 2) % 7)
    ensures posted.weekday == 4 ==> DueDate(posted).weekday == Saturday
    ensures posted.weekday == 5 ==> DueDate(posted).weekday == Sunday
  {
    var w, n := posted.weekday, DaysUntilDue(posted.weekday);
    AddDaysIsNDaysLater(posted, n);
    DueWeekday(w, n);
  }

  /** The weekday arithmetic of the due date. */
  lemma DueWeekday(w: nat, n: nat)
    requires w < 7 && n == DaysUntilDue(w)
    ensures n == (if w == 0 then 3 else if w == 6 then 4 else 2)
    ensures (w + n) % 7 == (if w == 0 || w == 6 then 3 else (w + 2) % 7)
    ensures w == 4 ==> (w + n) % 7 == Saturday
    ensures w == 5 ==> (w + n) % 7 == Sunday
  {
  }

  /** `authors[index]`, which interpolates as "undefined" past the end of the list. */
  function AuthorAt(authors: seq<string>, index: nat): string {
    if index < |authors| then authors[index] else "undefined"
  }

  /** The value the script sets in field `k` of `FieldOrder`: the two single-select options by
      reference to a declared variable, the two dates, the feature text and the author as
      literals. */
  function SlotValue(k: nat, postedText: string, dueText: string, author: string): Value
    requires k < 6
  {
    if k == 0 then Reference(ReadyForReviewVar)
    else if k == 1 then Literal(postedText)
    else if k == 2 then Literal(dueText)
    else if k == 3 then Reference(HubberTypeVar)
    else if k == 4 then Literal(FeatureText)
    else Literal(author)
  }

  /** The six `generateMutation` calls the script makes for one item, in the order it makes them. */
  function ItemUpdates(index: nat, item: string, author: string, postedText: string, dueText: string)
    : seq<FieldUpdate>
  {
    seq(6, k requires 0 <= k < 6 => GenerateMutation(index, item, FieldOrder[k], SlotValue(k, postedText, dueText, author)))
  }

  /** The blocks of the update mutation, one per item, given the two formatted dates. */
  function ItemBlocks(items: seq<string>, authors: seq<string>, postedText: string, dueText: string)
    : seq<seq<FieldUpdate>>
  {
    seq(|items|, i requires 0 <= i < |items| => ItemUpdates(i, items[i], AuthorAt(authors, i), postedText, dueText))
  }

  /** All updates of the mutation, item after item. */
  function UpdateOps(items: seq<string>, authors: seq<string>, postedText: string, dueText: string)
    : seq<FieldUpdate>
  {
    Flatten(ItemBlocks(items, authors, postedText, dueText))
  }

  /** The text one item contributes: its six updates, each on a line of its own. */
  function RenderItemBlock(us: seq<FieldUpdate>): string {
    "\n    " + Join(seq(|us|, k requires 0 <= k < |us| => RenderFieldUpdate(us[k])), "\n    ") + "\n  "
  }

  const UpdateHeader :=
    "\n    mutation(\n      $project: ID!\n      $statusID: ID!\n      $readyForReviewID: String!\n"
    + "      $datePostedID: ID!\n      $reviewDueDateID: ID!\n      $contributorTypeID: ID!\n"
    + "      $hubberTypeID: String!\n      $featureID: ID!\n      $authorID: ID!\n\n    ) {\n      "
  const UpdateFooter := "\n    }\n    "

  /** The mutation text around the given blocks: the variable declarations, then the blocks
      joined by a space. */
  function UpdateDocument(blocks: seq<seq<FieldUpdate>>): string {
    UpdateHeader + Join(seq(|blocks|, i requires 0 <= i < |blocks| => RenderItemBlock(blocks[i])), " ") + UpdateFooter
  }

  /** `generateUpdateProjectNextItemFieldMutation(items, authors)` on the day `posted`: the
      dates written are that day and its due date. */
  function UpdateMutation(items: seq<string>, authors: seq<string>, posted: Date): string
    requires Valid(posted)
  {
    UpdateDocument(ItemBlocks(items, authors, FormatDate(posted), FormatDate(DueDate(posted))))
  }

  lemma {:induction false} FlattenSixes(bs: seq<seq<FieldUpdate>>)
    requires forall j :: 0 <= j < |bs| ==> |bs[j]| == 6
    ensures |Flatten(bs)| == 6 * |bs|
    ensures forall i, k :: 0 <= i < |bs| && 0 <= k < 6 ==> Flatten(bs)[6 * i + k] == bs[i][k]
  {
    if bs != [] {
      FlattenSixes(bs[1..]);
      forall i, k | 0 <= i < |bs| && 0 <= k < 6
        ensures Flatten(bs)[6 * i + k] == bs[i][k]
      {
        if i > 0 {
          assert bs[1..][i - 1] == bs[i];
          assert Flatten(bs[1..])[6 * (i - 1) + k] == bs[i][k];
        }
      }
    }
  }

  /** The update mutation holds exactly six updates per item, in the fixed field order: update
      `k` of item `i` targets that item and field `k`, under alias `set_<field>_item_<i>`, with
      the value the script assigns to that field. */
  lemma UpdateOpsShape(items: seq<string>, authors: seq<string>, postedText: string, dueText: string)
    ensures |UpdateOps(items, authors, postedText, dueText)| == 6 * |items|
    ensures forall i, k :: 0 <= i < |items| && 0 <= k < 6 ==>
      UpdateOps(items, authors, postedText, dueText)[6 * i + k]
        == FieldUpdate(UpdateAlias(FieldOrder[k], i), items[i], FieldOrder[k], SlotValue(k, postedText, dueText, AuthorAt(authors, i)))
  {
    var bs := ItemBlocks(items, authors, postedText, dueText);
    FlattenSixes(bs);
    forall i, k | 0 <= i < |items| && 0 <= k < 6
      ensures Flatten(bs)[6 * i + k]
        == FieldUpdate(UpdateAlias(FieldOrder[k], i), items[i], FieldOrder[k], SlotValue(k, postedText, dueText, AuthorAt(authors, i)))
    {
      var us := ItemUpdates(i, items[i], AuthorAt(authors, i), postedText, dueText);
      var g := GenerateMutation(i, items[i], FieldOrder[k], SlotValue(k, postedText, dueText, AuthorAt(authors, i)));
      assert bs[i] == us;
      assert us[k] == g;
      assert Flatten(bs)[6 * i + k] == g;
    }
  }

  /** Each item's six updates carry the values the script assigns: the two single-select
      options by reference, the posting date and the due date, the feature text and
      `authors[i]` as literals ("undefined" once the authors run out). */
  lemma UpdateOpsValues(items: seq<string>, authors: seq<string>, postedText: string, dueText: string)
    ensures |UpdateOps(items, authors, postedText, dueText)| == 6 * |items|
    ensures forall i :: 0 <= i < |items| ==>
      var ops := UpdateOps(items, authors, postedText, dueText);
      && ops[6 * i].value == Reference(ReadyForReviewVar)
      && ops[6 * i + 1].value == Literal(postedText)
      && ops[6 * i + 2].value == Literal(dueText)
      && ops[6 * i + 3].value == Reference(HubberTypeVar)
      && ops[6 * i + 4].value == Literal(FeatureText)
      && ops[6 * i + 5].value == Literal(AuthorAt(authors, i))
    ensures forall i :: 0 <= i < |items| && i < |authors| ==>
      UpdateOps(items, authors, postedText, dueText)[6 * i + 5].value == Literal(authors[i])
  {
    var ops := UpdateOps(items, authors, postedText, dueText);
    UpdateOpsShape(items, authors, postedText, dueText);
    forall i | 0 <= i < |items|
      ensures ops[6 * i].value == Reference(ReadyForReviewVar)
      ensures ops[6 * i + 1].value == Literal(postedText)
      ensures ops[6 * i + 2].value == Literal(dueText)
      ensures ops[6 * i + 3].value == Reference(HubberTypeVar)
      ensures ops[6 * i + 4].value == Literal(FeatureText)
      ensures ops[6 * i + 5].value == Literal(AuthorAt(authors, i))
    {
      var a := AuthorAt(authors, i);
      assert ops[6 * i + 0] == FieldUpdate(UpdateAlias(FieldOrder[0], i), items[i], FieldOrder[0], SlotValue(0, postedText, dueText, a));
      assert ops[6 * i + 1] == FieldUpdate(UpdateAlias(FieldOrder[1], i), items[i], FieldOrder[1], SlotValue(1, postedText, dueText, a));
      assert ops[6 * i + 2] == FieldUpdate(UpdateAlias(FieldOrder[2], i), items[i], FieldOrder[2], SlotValue(2, postedText, dueText, a));
      assert ops[6 * i + 3] == FieldUpdate(UpdateAlias(FieldOrder[3], i), items[i], FieldOrder[3], SlotValue(3, postedText, dueText, a));
      assert ops[6 * i + 4] == FieldUpdate(UpdateAlias(FieldOrder[4], i), items[i], FieldOrder[4], SlotValue(4, postedText, dueText, a));
      assert ops[6 * i + 5] == FieldUpdate(UpdateAlias(FieldOrder[5], i), items[i], FieldOrder[5], SlotValue(5, postedText, dueText, a));
    }
  }

  /** No field variable past its first character contains `_`, and the six are pairwise different. */
  lemma FieldSuffixes()
    ensures forall k :: 0 <= k < 6 ==> |FieldOrder[k]| > 0 && '_' !in DropFirst(FieldOrder[k])
    ensures forall k, l :: 0 <= k < l < 6 ==> DropFirst(FieldOrder[k]) != DropFirst(FieldOrder[l])
  {
    forall k | 0 <= k < 6
      ensures DropFirst(FieldOrder[k]) == FieldStem(k)
    {
      DropDollar(FieldStem(k));
    }
    forall k, l | 0 <= k < l < 6
      ensures FieldStem(k) != FieldStem(l)
    {
      FieldStemInjective(k, l);
    }
  }

  lemma FieldStemInjective(k: nat, l: nat)
    requires k < l < 6
    ensures FieldStem(k) != FieldStem(l)
  {
    if k == 0 && l == 5 {
      assert FieldStem(k)[0] != FieldStem(l)[0];
    } else {
      assert |FieldStem(k)| != |FieldStem(l)|;
    }
  }

  lemma DropDollar(stem: string)
    ensures DropFirst("$" + stem) == stem
  {
    assert ("$" + stem)[1..] == stem;
  }

  /** An update alias determines the field suffix and the item index it was built from. */
  lemma UpdateAliasInjective(f1: string, i1: nat, f2: string, i2: nat)
    requires '_' !in DropFirst(f1) && '_' !in DropFirst(f2)
    ensures UpdateAlias(f1, i1) == UpdateAlias(f2, i2) ==> DropFirst(f1) == DropFirst(f2) && i1 == i2
  {
    var s1, s2 := DropFirst(f1), DropFirst(f2);
    var a1, a2 := UpdateAlias(f1, i1), UpdateAlias(f2, i2);
    assert a1 == "set_" + s1 + "_item_" + NatToString(i1);
    assert a2 == "set_" + s2 + "_item_" + NatToString(i2);
    FirstOccurrenceOfChar(a1, '_', 4, 4 + |s1|);
    FirstOccurrenceOfChar(a2, '_', 4, 4 + |s2|);
    assert a1[4..4 + |s1|] == s1 && a2[4..4 + |s2|] == s2;
    assert a1[4 + |s1| + 6..] == NatToString(i1);
    assert a2[4 + |s2| + 6..] == NatToString(i2);
    NatToStringInjective(i1, i2);
  }

  /** Update `p` of the mutation is update `k` of item `i`, with the alias built from them. */
  lemma OpAt(items: seq<string>, authors: seq<string>, postedText: string, dueText: string, p: nat)
    returns (i: nat, k: nat)
    requires p < |UpdateOps(items, authors, postedText, dueText)|
    ensures i < |items| && k < 6 && p == 6 * i + k
    ensures UpdateOps(items, authors, postedText, dueText)[p].alias == UpdateAlias(FieldOrder[k], i)
  {
    UpdateOpsShape(items, authors, postedText, dueText);
    i, k := DivideBySix(p, |items|);
    assert UpdateOps(items, authors, postedText, dueText)[6 * i + k]
      == FieldUpdate(UpdateAlias(FieldOrder[k], i), items[i], FieldOrder[k], SlotValue(k, postedText, dueText, AuthorAt(authors, i)));
  }

  lemma DivideBySix(p: nat, n: nat) returns (i: nat, k: nat)
    requires p < 6 * n
    ensures i < n && k < 6 && p == 6 * i + k
  {
    i, k := p / 6, p % 6;
  }

  /** Across the whole update mutation, the 6·N aliases are pairwise distinct. */
  lemma UpdateAliasesDistinct(items: seq<string>, authors: seq<string>, postedText: string, dueText: string)
    ensures forall p, q :: 0 <= p < q < |UpdateOps(items, authors, postedText, dueText)| ==>
      UpdateOps(items, authors, postedText, dueText)[p].alias != UpdateOps(items, authors, postedText, dueText)[q].alias
  {
    var ops := UpdateOps(items, authors, postedText, dueText);
    FieldSuffixes();
    forall p, q | 0 <= p < q < |ops|
      ensures ops[p].alias != ops[q].alias
    {
      var i, k := OpAt(items, authors, postedText, dueText, p);
      var j, l := OpAt(items, authors, postedText, dueText, q);
      UpdateAliasInjective(FieldOrder[k], i, FieldOrder[l], j);
    }
  }

  /** An item's block of text contains the text of each of its updates. */
  lemma ItemBlockHolds(us: seq<FieldUpdate>, k: nat) returns (at: nat)
    requires k < |us|
    ensures MatchesAt(RenderItemBlock(us), RenderFieldUpdate(us[k]), at)
  {
    var lines := seq(|us|, m requires 0 <= m < |us| => RenderFieldUpdate(us[m]));
    var inLines := JoinContains(lines, "\n    ", k);
    at := MatchesInMiddle("\n    ", Join(lines, "\n    "), "\n  ", lines[k], inLines);
  }

  /** The mutation text contains the text of each of its blocks. */
  lemma UpdateDocumentHolds(blocks: seq<seq<FieldUpdate>>, i: nat) returns (at: nat)
    requires i < |blocks|
    ensures MatchesAt(UpdateDocument(blocks), RenderItemBlock(blocks[i]), at)
  {
    var texts := seq(|blocks|, m requires 0 <= m < |blocks| => RenderItemBlock(blocks[m]));
    var inner := JoinContains(texts, " ", i);
    at := MatchesInMiddle(UpdateHeader, Join(texts, " "), UpdateFooter, texts[i], inner);
  }

  /** The mutation text holds the text of update `k` of block `i`. */
  lemma DocumentHoldsUpdate(bs: seq<seq<FieldUpdate>>, i: nat, k: nat) returns (at: nat)
    requires i < |bs| && k < |bs[i]|
    ensures MatchesAt(UpdateDocument(bs), RenderFieldUpdate(bs[i][k]), at)
  {
    var inner := ItemBlockHolds(bs[i], k);
    var outer := UpdateDocumentHolds(bs, i);
    at := MatchesWithin(UpdateDocument(bs), RenderItemBlock(bs[i]), RenderFieldUpdate(bs[i][k]), outer, inner);
  }

  /** The serialised update mutation contains the text of every one of its updates, with the
      day's date and its due date as the two date values. */
  lemma UpdateMutationHolds(items: seq<string>, authors: seq<string>, posted: Date, i: nat, k: nat)
    returns (at: nat)
    requires Valid(posted) && i < |items| && k < 6
    ensures var ops := UpdateOps(items, authors, FormatDate(posted), FormatDate(DueDate(posted)));
      6 * i + k < |ops| && MatchesAt(UpdateMutation(items, authors, posted), RenderFieldUpdate(ops[6 * i + k]), at)
  {
    var bs := ItemBlocks(items, authors, FormatDate(posted), FormatDate(DueDate(posted)));
    FlattenSixes(bs);
    assert Flatten(bs)[6 * i + k] == bs[i][k];
    at := DocumentHoldsUpdate(bs, i, k);
  }

  // ---------------------------------------------------------------------------------------
  // Field and option lookups (run, lines 237-246)

  datatype SelectOption = SelectOption(id: string, name: string)

  /** A project field; `options` is what the parsed `settings` hold under `options`, absent for
      fields that are not single-select. */
  datatype ProjectField = ProjectField(id: string, name: string, options: Option<seq<SelectOption>>)

  /** The TypeErrors `run` can end with: reading the name of a null reviewer, reading the
      login of a null author (a deleted account), and reading from the `undefined` that `find`
      gives when no field, options list or option matches. */
  datatype BoardError =
    | NullReviewer
    | NullAuthor
    | FieldMissing(field: string)
    | NoOptions(field: string)
    | OptionMissing(field: string, option: string)

  /** The id of the first field whose name is exactly `name`; an error when none is. */
  function FieldId(fields: seq<ProjectField>, name: string): (r: Result<string, BoardError>)
    ensures r.Success? <==> exists i :: 0 <= i < |fields| && fields[i].name == name
    ensures r.Success? ==> exists i :: 0 <= i < |fields| && fields[i].name == name && r.value == fields[i].id
                                       && forall j :: 0 <= j < i ==> fields[j].name != name
    ensures r.Failure? ==> r.error == FieldMissing(name)
  {
    match FindIndex(fields, (f: ProjectField) => f.name == name)
    case None => Failure(FieldMissing(name))
    case Some(i) => Success(fields[i].id)
  }

  /** The id of option `option` of the first field named `field`: the first option of that
      field whose name is exactly `option`. */
  function OptionId(fields: seq<ProjectField>, field: string, option: string): (r: Result<string, BoardError>)
    ensures r.Success? <==> exists i :: 0 <= i < |fields| && fields[i].name == field
                                       && (forall j :: 0 <= j < i ==> fields[j].name != field)
                                       && fields[i].options.Some?
                                       && exists k :: 0 <= k < |fields[i].options.value|
                                                      && fields[i].options.value[k].name == option
    ensures r.Success? ==> exists i, k :: 0 <= i < |fields| && fields[i].name == field
                                          && (forall j :: 0 <= j < i ==> fields[j].name != field)
                                          && fields[i].options.Some?
                                          && 0 <= k < |fields[i].options.value|
                                          && fields[i].options.value[k].name == option
                                          && (forall m :: 0 <= m < k ==> fields[i].options.value[m].name != option)
                                          && r.value == fields[i].options.value[k].id
    ensures r.Failure? && (forall i :: 0 <= i < |fields| ==> fields[i].name != field) ==> r.error == FieldMissing(field)
  {
    match FindIndex(fields, (f: ProjectField) => f.name == field)
    case None => Failure(FieldMissing(field))
    case Some(i) =>
      match fields[i].options
      case None => Failure(NoOptions(field))
      case Some(opts) =>
        match FindIndex(opts, (o: SelectOption) => o.name == option)
        case None => Failure(OptionMissing(field, option))
        case Some(k) => Success(opts[k].id)
  }

  /** The ids `run` passes as variables to the update mutation. */
  datatype BoardIds = BoardIds(
    projectId: string,
    datePostedId: string, reviewDueDateId: string, statusId: string,
    featureId: string, contributorTypeId: string, authorId: string,
    readyForReviewId: string, hubberTypeId: string)

  /** The lookups of `run`, in the script's order; the first one that fails ends the run. */
  function ResolveBoard(projectId: string, fields: seq<ProjectField>): Result<BoardIds, BoardError> {
    var datePosted :- FieldId(fields, "Date posted");
    var reviewDueDate :- FieldId(fields, "Review due date");
    var status :- FieldId(fields, "Status");
    var feature :- FieldId(fields, "Feature");
    var contributorType :- FieldId(fields, "Contributor type");
    var author :- FieldId(fields, "Author");
    var readyForReview :- OptionId(fields, "Status", "Ready for review");
    var hubberType :- OptionId(fields, "Contributor type", "Hubber or partner");
    Success(BoardIds(projectId, datePosted, reviewDueDate, status, feature, contributorType,
                     author, readyForReview, hubberType))
  }

  /** Every id `ResolveBoard` hands out is the one the lookup by exact name gives, and it fails
      exactly when some lookup does. */
  lemma ResolveBoardUsesLookups(projectId: string, fields: seq<ProjectField>)
    ensures ResolveBoard(projectId, fields).Success? <==>
      && FieldId(fields, "Date posted").Success? && FieldId(fields, "Review due date").Success?
      && FieldId(fields, "Status").Success? && FieldId(fields, "Feature").Success?
      && FieldId(fields, "Contributor type").Success? && FieldId(fields, "Author").Success?
      && OptionId(fields, "Status", "Ready for review").Success?
      && OptionId(fields, "Contributor type", "Hubber or partner").Success?
    ensures ResolveBoard(projectId, fields).Success? ==>
      var ids := ResolveBoard(projectId, fields).value;
      && ids.projectId == projectId
      && ids.datePostedId == FieldId(fields, "Date posted").value
      && ids.reviewDueDateId == FieldId(fields, "Review due date").value
      && ids.statusId == FieldId(fields, "Status").value
      && ids.featureId == FieldId(fields, "Feature").value
      && ids.contributorTypeId == FieldId(fields, "Contributor type").value
      && ids.authorId == FieldId(fields, "Author").value
      && ids.readyForReviewId == OptionId(fields, "Status", "Ready for review").value
      && ids.hubberTypeId == OptionId(fields, "Contributor type", "Hubber or partner").value
  {
  }

  // ---------------------------------------------------------------------------------------
  // Choosing the pull requests (run, lines 218-230)

  /** An open pull request as the query of `run` returns it: the team names each review was
      given on behalf of are listed per review, and the author is its login, or `None` when
      the author is null. */
  datatype PullRequest = PullRequest(
    id: string, isDraft: bool, reviewRequests: seq<Reviewer>, labels: seq<string>,
    reviews: seq<seq<string>>, author: Option<string>)

  const TrainLabel := "Deploy train \U{1F682}"
  const ReviewerName := "test-team"

  predicate NamesTeam(r: Reviewer, name: string) {
    r.Team? && r.name == name
  }

  /** `reviewRequests.nodes.find(rr => rr.requestedReviewer.name === name)`: true at the first
      request naming the team; reading the name of a null reviewer before that throws. */
  function RequestsTeam(requests: seq<Reviewer>, name: string): Result<bool, BoardError> {
    if requests == [] then Success(false)
    else if requests[0].Null? then Failure(NullReviewer)
    else if NamesTeam(requests[0], name) then Success(true)
    else RequestsTeam(requests[1..], name)
  }

  lemma {:induction false} RequestsTeamMeaning(requests: seq<Reviewer>, name: string)
    ensures RequestsTeam(requests, name) == Success(true) <==>
      exists i :: 0 <= i < |requests| && NamesTeam(requests[i], name)
                  && forall j :: 0 <= j < i ==> !requests[j].Null?
    ensures RequestsTeam(requests, name) == Success(false) <==>
      forall i :: 0 <= i < |requests| ==> !NamesTeam(requests[i], name) && !requests[i].Null?
    ensures RequestsTeam(requests, name).Failure? ==> RequestsTeam(requests, name).error == NullReviewer
  {
    if requests != [] {
      RequestsTeamMeaning(requests[1..], name);
      assert forall i :: 1 <= i < |requests| ==> requests[i] == requests[1..][i - 1];
      if RequestsTeam(requests, name) == Success(true) && !NamesTeam(requests[0], name) {
        var i :| 0 <= i < |requests[1..]| && NamesTeam(requests[1..][i], name)
                 && forall j :: 0 <= j < i ==> !requests[1..][j].Null?;
        assert NamesTeam(requests[i + 1], name);
      }
    }
  }

  /** `reviews.nodes.flatMap(review => review.onBehalfOf.nodes).find(b => b.name === name)`. */
  predicate ReviewedOnBehalf(reviews: seq<seq<string>>, name: string) {
    name in Flatten(reviews)
  }

  /** The condition of the script's `filter`, evaluated left to right with short circuits. */
  function KeepPr(pr: PullRequest, name: string): Result<bool, BoardError> {
    if pr.isDraft || TrainLabel in pr.labels then Success(false)
    else
      var requested :- RequestsTeam(pr.reviewRequests, name);
      Success(requested && !ReviewedOnBehalf(pr.reviews, name))
  }

  /** The four conditions of the script's comment: not a draft, not a deploy train, a review
      is requested from the team, and no review was already given on the team's behalf. */
  ghost predicate MeetsConditions(pr: PullRequest, name: string) {
    && !pr.isDraft
    && TrainLabel !in pr.labels
    && (exists i :: 0 <= i < |pr.reviewRequests| && NamesTeam(pr.reviewRequests[i], name))
    && !(exists i :: 0 <= i < |pr.reviews| && name in pr.reviews[i])
  }

  /** Where the condition evaluates without error, it holds exactly for the pull requests
      that meet the four conditions. */
  lemma KeepPrMeaning(pr: PullRequest, name: string)
    requires KeepPr(pr, name).Success?
    ensures KeepPr(pr, name).value <==> MeetsConditions(pr, name)
  {
    InFlatten(pr.reviews, name);
    RequestsTeamMeaning(pr.reviewRequests, name);
  }

  /** `pullRequests.nodes.filter(...)`: fails when the condition fails on any pull request. */
  function SelectPrs(prs: seq<PullRequest>, name: string): Result<seq<PullRequest>, BoardError> {
    if prs == [] then Success([])
    else
      var keep :- KeepPr(prs[0], name);
      var rest :- SelectPrs(prs[1..], name);
      Success(if keep then [prs[0]] + rest else rest)
  }

  lemma {:induction false} SelectPrsIsFilter(prs: seq<PullRequest>, name: string)
    ensures SelectPrs(prs, name).Success? <==> forall i :: 0 <= i < |prs| ==> KeepPr(prs[i], name).Success?
    ensures SelectPrs(prs, name).Success? ==>
      SelectPrs(prs, name).value == Filter(prs, (pr: PullRequest) => KeepPr(pr, name) == Success(true))
  {
    if prs != [] {
      SelectPrsIsFilter(prs[1..], name);
      assert forall i :: 1 <= i < |prs| ==> prs[i] == prs[1..][i - 1];
    }
  }

  /** The selection keeps exactly the pull requests that meet the four conditions, in their
      input order: the kept ones sit at strictly increasing input positions, and a position
      is kept exactly when its pull request meets the conditions. */
  lemma SelectPrsExactly(prs: seq<PullRequest>, name: string) returns (idx: seq<nat>)
    requires SelectPrs(prs, name).Success?
    ensures |idx| == |SelectPrs(prs, name).value|
    ensures forall j :: 0 <= j < |idx| ==> idx[j] < |prs| && SelectPrs(prs, name).value[j] == prs[idx[j]]
    ensures forall j, k :: 0 <= j < k < |idx| ==> idx[j] < idx[k]
    ensures forall i :: 0 <= i < |prs| ==> (MeetsConditions(prs[i], name) <==> i in idx)
  {
    SelectPrsIsFilter(prs, name);
    idx := FilterSelection(prs, (pr: PullRequest) => KeepPr(pr, name) == Success(true));
    forall i | 0 <= i < |prs|
      ensures MeetsConditions(prs[i], name) <==> KeepPr(prs[i], name) == Success(true)
    {
      KeepPrMeaning(prs[i], name);
    }
  }

  function PrIds(prs: seq<PullRequest>): seq<string> {
    seq(|prs|, i requires 0 <= i < |prs| => prs[i].id)
  }

  /** `prs.map(pr => pr.author.login)`: the logins in order; reading the login of a null
      author throws. */
  function PrAuthors(prs: seq<PullRequest>): (r: Result<seq<string>, BoardError>)
    ensures r.Success? <==> forall i :: 0 <= i < |prs| ==> prs[i].author.Some?
    ensures r.Success? ==> |r.value| == |prs| && forall i :: 0 <= i < |prs| ==> prs[i].author == Some(r.value[i])
    ensures r.Failure? ==> r.error == NullAuthor
  {
    if prs == [] then Success([])
    else
      match prs[0].author
      case None => Failure(NullAuthor)
      case Some(login) =>
        var rest :- PrAuthors(prs[1..]);
        assert forall i :: 1 <= i < |prs| ==> prs[i] == prs[1..][i - 1];
        Success([login] + rest)
  }

  /** What `run` goes on to do once the data is in: stop when nothing is selected, or add the
      selected pull requests with these ids and authors and the resolved board ids. */
  datatype Plan = NoPrs | AddToBoard(prIds: seq<string>, prAuthors: seq<string>, ids: BoardIds)

  /** `run` up to the first mutation: select, stop on an empty selection, read the ids and
      the authors' logins, then resolve the board ids. */
  function PlanRun(projectId: string, fields: seq<ProjectField>, prs: seq<PullRequest>): (r: Result<Plan, BoardError>)
    ensures SelectPrs(prs, ReviewerName).Failure? ==> r == Failure(SelectPrs(prs, ReviewerName).error)
    ensures SelectPrs(prs, ReviewerName) == Success([]) <==> r == Success(NoPrs)
    ensures SelectPrs(prs, ReviewerName).Success? && SelectPrs(prs, ReviewerName).value != [] ==>
      var selected := SelectPrs(prs, ReviewerName).value;
      && (r.Success? <==> (forall i :: 0 <= i < |selected| ==> selected[i].author.Some?)
                          && ResolveBoard(projectId, fields).Success?)
      && (r.Success? ==> r.value.AddToBoard?)
      && ((exists i :: 0 <= i < |selected| && selected[i].author.None?) ==> r == Failure(NullAuthor))
    ensures r.Success? && r.value.AddToBoard? ==>
      var selected := SelectPrs(prs, ReviewerName).value;
      && SelectPrs(prs, ReviewerName).Success? && selected != []
      && |r.value.prIds| == |r.value.prAuthors| == |selected|
      && (forall i :: 0 <= i < |selected| ==>
            r.value.prIds[i] == selected[i].id && selected[i].author == Some(r.value.prAuthors[i]))
      && ResolveBoard(projectId, fields) == Success(r.value.ids)
  {
    var selected :- SelectPrs(prs, ReviewerName);
    if selected == [] then Success(NoPrs)
    else
      var authors :- PrAuthors(selected);
      var ids :- ResolveBoard(projectId, fields);
      Success(AddToBoard(PrIds(selected), authors, ids))
  }
}
