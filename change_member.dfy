/** The confirmation check at the end of `changeMember`: the first `h3` of the
    response must mention both addresses, each checked with `strpos(...) == True`. */
module ChangeMember {
  import opened Wrappers
  import opened Dom
  import opened PhpStrings

  /** `nodeValue` of the first `h3`. With no `h3` the property read on `null` gives
      `null`, which `strpos` treats as the empty string. */
  function HeadingText(d: Document): (text: string)
    ensures ElementsByTagName(d, "h3") == [] ==> text == ""
    ensures ElementsByTagName(d, "h3") != [] ==> text == NodeText(ElementsByTagName(d, "h3")[0])
  {
    match Item(ElementsByTagName(d, "h3"), 0)
    case None => ""
    case Some(h3) => NodeText(h3)
  }

  /** `strpos($h3->nodeValue, $memberFrom) == True && strpos($h3->nodeValue, $memberTo) == True`:
      true exactly when there is an `h3` whose text holds both addresses, each
      occurring somewhere but not at offset 0. */
  predicate ChangeConfirmed(d: Document, memberFrom: string, memberTo: string)
    ensures ChangeConfirmed(d, memberFrom, memberTo)
        <==> && ElementsByTagName(d, "h3") != []
             && FoundAfterStart(NodeText(ElementsByTagName(d, "h3")[0]), memberFrom)
             && FoundAfterStart(NodeText(ElementsByTagName(d, "h3")[0]), memberTo)
  {
    var text := HeadingText(d);
    LooselyTrueIff(text, memberFrom);
    LooselyTrueIff(text, memberTo);
    assert text == "" ==> !FoundAfterStart(text, memberFrom);
    LooselyTrue(StrPos(text, memberFrom)) && LooselyTrue(StrPos(text, memberTo))
  }

  /** A heading that starts with either address never confirms the change. */
  lemma LeadingAddressRejected(d: Document, memberFrom: string, memberTo: string)
    requires OccursAt(HeadingText(d), memberFrom, 0) || OccursAt(HeadingText(d), memberTo, 0)
    ensures !ChangeConfirmed(d, memberFrom, memberTo)
  {
  }

  /** A heading missing either address never confirms the change. */
  lemma AbsentAddressRejected(d: Document, memberFrom: string, memberTo: string)
    requires (forall j: nat :: !OccursAt(HeadingText(d), memberFrom, j))
          || (forall j: nat :: !OccursAt(HeadingText(d), memberTo, j))
    ensures !ChangeConfirmed(d, memberFrom, memberTo)
  {
  }

  /** A page with no `h3` is not an error: the check is false. */
  lemma NoHeadingRejected(d: Document, memberFrom: string, memberTo: string)
    requires ElementsByTagName(d, "h3") == []
    ensures !ChangeConfirmed(d, memberFrom, memberTo)
  {
  }

  /** The page whose only content is an `h3` holding `text`. */
  function HeadingPage(text: string): Document
  {
    Document([Element("h3", map[], [Text(text)])])
  }

  lemma HeadingPageText(text: string)
    ensures HeadingText(HeadingPage(text)) == text
  {
    var h3 := Element("h3", map[], [Text(text)]);
    assert [Text(text)][1..] == [];
    assert ForestByTag([Text(text)], "h3") == [];
    assert NodeByTag(h3, "h3") == [h3];
    assert [h3][1..] == [];
    assert ElementsByTagName(HeadingPage(text), "h3") == [Element("h3", map[], [Text(text)])];
    assert ForestText([Text(text)]) == text + ForestText([]);
  }

  /** A heading that mentions both addresses after some leading text that starts
      with neither of them confirms the change. */
  lemma ConfirmedAfterLeadingText(lead: string, memberFrom: string, middle: string, memberTo: string)
    requires lead != [] && memberFrom != [] && memberTo != []
    requires lead[0] != memberFrom[0] && lead[0] != memberTo[0]
    ensures ChangeConfirmed(HeadingPage(lead + memberFrom + middle + memberTo), memberFrom, memberTo)
  {
    var h := lead + memberFrom + middle + memberTo;
    HeadingPageText(h);
    FoundAfterPrefix(lead, memberFrom, middle + memberTo);
    assert h == lead + memberFrom + (middle + memberTo);
    var before := lead + memberFrom + middle;
    assert before[0] == lead[0];
    FoundAfterPrefix(before, memberTo, []);
    assert h == before + memberTo + [];
  }

  /** Both addresses after the start of the heading: confirmed. */
  lemma ConfirmedExample()
    ensures ChangeConfirmed(HeadingPage("Changed " + "old@x.com" + " to " + "new@x.com"), "old@x.com", "new@x.com")
  {
    ConfirmedAfterLeadingText("Changed ", "old@x.com", " to ", "new@x.com");
  }

  /** The old address at offset 0: `strpos` gives 0, and `0 == True` is false. */
  lemma LeadingAddressExample()
    ensures !ChangeConfirmed(HeadingPage("old@x.com changed to new@x.com"), "old@x.com", "new@x.com")
  {
    var h := "old@x.com changed to new@x.com";
    HeadingPageText(h);
    assert OccursAt(h, "old@x.com", 0);
  }
}
