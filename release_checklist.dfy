/** The checklist updater automation/docsUpdateReleaseChecklist.js: once the docs issue is
    open, the release issue's unlinked docs checklist item is replaced by a reference to it,
    provided the item is still unlinked both in the event payload and in a fresh copy of the
    issue body. */
module ReleaseChecklist {
  import opened Wrappers
  import opened Strings

  const ItemPrefix := "- [ ] \U{1F4D8} **Docs ([docs][docs-content]):** "

  /** The unlinked checklist item the release template contains (with a backslash before
      each angle bracket). */
  const Placeholder := ItemPrefix + "\\<link to docs-content issue or write \"N/A\"\\>"

  /** The linked item: `<owner>/docs-content/issues/<number>` after the same prefix. */
  function UpdatedItemText(owner: string, number: string): string {
    ItemPrefix + owner + "/docs-content/issues/" + number
  }

  /** The first token of a non-empty replacement pattern, for a string pattern (which has no
      capture groups): what it stands for and how many characters it takes. `$$` is a dollar
      sign, `$&` the matched text, `` $` `` the text before the match, `$'` the text after it;
      any other character, `$` included, stands for itself. */
  function FirstToken(replacement: string, matched: string, before: string, after: string): (t: (string, nat))
    requires replacement != []
    ensures 1 <= t.1 <= |replacement|
  {
    if replacement[0] == '$' && |replacement| >= 2 then
      var c := replacement[1];
      if c == '$' then ("$", 2)
      else if c == '&' then (matched, 2)
      else if c == '`' then (before, 2)
      else if c == '\'' then (after, 2)
      else ("$", 1)
    else ([replacement[0]], 1)
  }

  /** The replacement-pattern expansion of `String.prototype.replace`, token by token. */
  function Substitute(replacement: string, matched: string, before: string, after: string): string
    decreases |replacement|
  {
    if replacement == [] then []
    else
      var t := FirstToken(replacement, matched, before, after);
      t.0 + Substitute(replacement[t.1..], matched, before, after)
  }

  /** A replacement without a dollar sign is inserted as it is. */
  lemma {:induction false} SubstituteVerbatim(replacement: string, matched: string, before: string, after: string)
    requires '$' !in replacement
    ensures Substitute(replacement, matched, before, after) == replacement
    decreases |replacement|
  {
    if replacement != [] {
      var c, rest := replacement[0], replacement[1..];
      assert replacement == [c] + rest;
      assert c != '$';
      assert FirstToken(replacement, matched, before, after) == ([c], 1);
      assert Substitute(replacement, matched, before, after) == [c] + Substitute(rest, matched, before, after);
      SubstituteVerbatim(rest, matched, before, after);
    }
  }

  /** `s.replace(pattern, replacement)` with a string pattern: only the first occurrence is
      replaced; without one `s` is returned unchanged. */
  function ReplaceFirst(s: string, pattern: string, replacement: string): string {
    match IndexFrom(s, pattern, 0)
    case None => s
    case Some(i) =>
      s[..i] + Substitute(replacement, pattern, s[..i], s[i + |pattern|..]) + s[i + |pattern|..]
  }

  /** Replacing leaves the text before the first occurrence and the text after it as they
      were, and puts the (expanded) replacement in its place; a text without the pattern is
      unchanged. */
  lemma ReplaceFirstMeaning(s: string, pattern: string, replacement: string) returns (i: nat)
    ensures !Contains(s, pattern) ==> ReplaceFirst(s, pattern, replacement) == s
    ensures Contains(s, pattern) ==>
      && MatchesAt(s, pattern, i)
      && (forall k :: 0 <= k < i ==> !MatchesAt(s, pattern, k))
      && ReplaceFirst(s, pattern, replacement)
         == s[..i] + Substitute(replacement, pattern, s[..i], s[i + |pattern|..]) + s[i + |pattern|..]
  {
    var r := IndexFrom(s, pattern, 0);
    if r.Some? {
      i := r.value;
    } else {
      i := 0;
      assert !Contains(s, pattern);
    }
  }

  /** The new body to write, or `None` when the script leaves the release issue alone. The
      payload's body is checked first and the re-fetched body only then. */
  function UpdateDecision(payloadBody: string, fetchedBody: string, owner: string, number: string): Option<string> {
    if !Contains(payloadBody, Placeholder) then None
    else if !Contains(fetchedBody, Placeholder) then None
    else Some(ReplaceFirst(fetchedBody, Placeholder, UpdatedItemText(owner, number)))
  }

  /** The issue is updated exactly when both bodies still hold the unlinked item. The new body
      is the fetched one with its first unlinked item, and only that, turned into the linked
      item (the owner and number are put in as they are when neither holds a dollar sign). */
  lemma UpdateDecisionMeaning(payloadBody: string, fetchedBody: string, owner: string, number: string)
    ensures UpdateDecision(payloadBody, fetchedBody, owner, number).Some?
            <==> Contains(payloadBody, Placeholder) && Contains(fetchedBody, Placeholder)
    ensures UpdateDecision(payloadBody, fetchedBody, owner, number).Some? && '$' !in owner && '$' !in number ==>
      exists i :: 0 <= i && i + |Placeholder| <= |fetchedBody| && MatchesAt(fetchedBody, Placeholder, i)
                  && (forall k :: 0 <= k < i ==> !MatchesAt(fetchedBody, Placeholder, k))
                  && UpdateDecision(payloadBody, fetchedBody, owner, number).value
                     == fetchedBody[..i] + UpdatedItemText(owner, number) + fetchedBody[i + |Placeholder|..]
  {
    if UpdateDecision(payloadBody, fetchedBody, owner, number).Some? && '$' !in owner && '$' !in number {
      var text := UpdatedItemText(owner, number);
      ItemTextVerbatim(owner, number);
      var i := IndexFrom(fetchedBody, Placeholder, 0).value;
      SubstituteVerbatim(text, Placeholder, fetchedBody[..i], fetchedBody[i + |Placeholder|..]);
      assert UpdateDecision(payloadBody, fetchedBody, owner, number).value
             == fetchedBody[..i] + text + fetchedBody[i + |Placeholder|..];
    }
  }

  /** The linked item holds a dollar sign only where the owner or the number does. */
  lemma ItemTextVerbatim(owner: string, number: string)
    requires '$' !in owner && '$' !in number
    ensures '$' !in UpdatedItemText(owner, number)
  {
    var infix := "/docs-content/issues/";
    assert forall k :: 0 <= k < |ItemPrefix| ==> ItemPrefix[k] != '$';
    assert forall k :: 0 <= k < |infix| ==> infix[k] != '$';
    assert UpdatedItemText(owner, number) == ItemPrefix + owner + infix + number;
  }
}
