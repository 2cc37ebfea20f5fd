/** `parseResultList`: the addresses a batch subscribe or unsubscribe reports as
    applied. A first `h5` marks that something succeeded; the entries are then the
    `li` texts of the first `ul`, minus those with a warning after "--". */
module ResultList {
  import opened Wrappers
  import opened Dom
  import opened PhpStrings

  /** The separator the result page puts before a warning. */
  const WarningMark: string := "--"

  /** `strpos($text, '--') == False` under PHP loose comparison: true when "--" is
      absent, and also when the text starts with it (position 0 equals `false`). */
  predicate IsApplied(text: string)
  {
    LooselyFalse(StrPos(text, WarningMark))
  }

  /** The texts kept by the filter, in their original order. */
  function AppliedEntries(texts: seq<string>): seq<string>
    decreases |texts|
  {
    if texts == [] then []
    else (if IsApplied(texts[0]) then [texts[0]] else []) + AppliedEntries(texts[1..])
  }

  /** The `nodeValue` of every `li` inside `ul`, in document order. */
  function ListItemTexts(ul: Node): seq<string>
  {
    var lis := Descendants(ul, "li");
    seq(|lis|, i requires 0 <= i < |lis| => NodeText(lis[i]))
  }

  /** What `parseResultList` returns for a parsed result page. */
  function ResultEntries(d: Document): Result<seq<string>>
  {
    if |ElementsByTagName(d, "h5")| == 0 then Ok([])
    else
      match Item(ElementsByTagName(d, "ul"), 0)
      case None => Err(Missing("ul", 0))
      case Some(ul) => Ok(AppliedEntries(ListItemTexts(ul)))
  }

  /** `parseResultList($body)` on the parsed body `d`. */
  method ParseResultList(d: Document) returns (r: Result<seq<string>>)
    ensures r == ResultEntries(d)
  {
    var result: seq<string> := [];
    var haveSuccessfulEntry := Item(ElementsByTagName(d, "h5"), 0) != None;
    if haveSuccessfulEntry {
      var uls := Item(ElementsByTagName(d, "ul"), 0);
      if uls.None? {
        r := Err(Missing("ul", 0));
        return;
      }
      var lis := Descendants(uls.value, "li");
      ghost var texts := ListItemTexts(uls.value);
      var i := 0;
      while i < |lis|
        invariant 0 <= i <= |lis|
        invariant result == AppliedEntries(texts[..i])
      {
        var text := NodeText(lis[i]);
        assert text == texts[i];
        assert texts[..i + 1] == texts[..i] + [text];
        AppliedAppend(texts[..i], [text]);
        assert [text][1..] == [];
        if LooselyFalse(StrPos(text, WarningMark)) {
          result := result + [text];
        }
        i := i + 1;
      }
      assert texts[..i] == texts;
    }
    r := Ok(result);
  }

  /** Filtering distributes over concatenation. */
  lemma {:induction false} AppliedAppend(a: seq<string>, b: seq<string>)
    ensures AppliedEntries(a + b) == AppliedEntries(a) + AppliedEntries(b)
    decreases |a|
  {
    if a == [] {
      assert a + b == b;
    } else {
      var keep := if IsApplied(a[0]) then [a[0]] else [];
      assert (a + b)[0] == a[0];
      assert (a + b)[1..] == a[1..] + b;
      assert AppliedEntries(a + b) == keep + AppliedEntries(a[1..] + b);
      AppliedAppend(a[1..], b);
      assert AppliedEntries(a) == keep + AppliedEntries(a[1..]);
    }
  }

  /** `a` is obtained from `b` by deleting elements, keeping the rest in order. */
  ghost predicate IsSubsequence(a: seq<string>, b: seq<string>)
    decreases |b|
  {
    a == [] || (b != [] && ((a[0] == b[0] && IsSubsequence(a[1..], b[1..])) || IsSubsequence(a, b[1..])))
  }

  lemma {:induction false} SubsequenceNoLonger(a: seq<string>, b: seq<string>)
    requires IsSubsequence(a, b)
    ensures |a| <= |b|
    decreases |b|
  {
    if a != [] {
      if a[0] == b[0] && IsSubsequence(a[1..], b[1..]) {
        SubsequenceNoLonger(a[1..], b[1..]);
      } else {
        SubsequenceNoLonger(a, b[1..]);
      }
    }
  }

  /** The applied entries are an order-preserving selection of the list items,
      so there are never more of them than items. */
  lemma {:induction false} AppliedIsSubsequence(texts: seq<string>)
    ensures IsSubsequence(AppliedEntries(texts), texts)
    ensures |AppliedEntries(texts)| <= |texts|
    decreases |texts|
  {
    if texts != [] {
      AppliedIsSubsequence(texts[1..]);
      var rest := AppliedEntries(texts[1..]);
      if IsApplied(texts[0]) {
        assert AppliedEntries(texts) == [texts[0]] + rest;
        assert ([texts[0]] + rest)[1..] == rest;
      } else {
        assert AppliedEntries(texts) == rest;
      }
    }
    SubsequenceNoLonger(AppliedEntries(texts), texts);
  }

  /** A text is among the applied entries exactly when it is a list item that passes the filter. */
  lemma {:induction false} AppliedMembership(x: string, texts: seq<string>)
    ensures x in AppliedEntries(texts) <==> x in texts && IsApplied(x)
    decreases |texts|
  {
    if texts != [] {
      AppliedMembership(x, texts[1..]);
      assert texts == [texts[0]] + texts[1..];
    }
  }

  /** The filter keeps a text exactly when "--" does not occur in it, or occurs first at offset 0. */
  lemma IsAppliedIff(text: string)
    ensures IsApplied(text) <==> OccursAt(text, WarningMark, 0) || forall j: nat :: !OccursAt(text, WarningMark, j)
  {
    LooselyFalseIff(text, WarningMark);
  }

  /** Without a first `h5` the result is empty, whatever else the page holds. */
  lemma NoSuccessHeadingMeansEmpty(d: Document)
    requires ElementsByTagName(d, "h5") == []
    ensures ResultEntries(d) == Ok([])
  {
  }

  /** With a first `h5`, the entries are a selection, in order, of the first `ul`'s
      `li` texts; a page with an `h5` but no `ul` is fatal. */
  lemma ResultEntriesFromFirstList(d: Document)
    requires ElementsByTagName(d, "h5") != []
    ensures ElementsByTagName(d, "ul") == [] ==> ResultEntries(d) == Err(Missing("ul", 0))
    ensures ElementsByTagName(d, "ul") != [] ==>
      var texts := ListItemTexts(ElementsByTagName(d, "ul")[0]);
      && ResultEntries(d).Ok?
      && IsSubsequence(ResultEntries(d).value, texts)
      && |ResultEntries(d).value| <= |texts|
  {
    if ElementsByTagName(d, "ul") != [] {
      AppliedIsSubsequence(ListItemTexts(ElementsByTagName(d, "ul")[0]));
    }
  }

  /** A line with a warning after "--" is dropped. */
  lemma WarningEntryDropped()
    ensures AppliedEntries(["a@x.com", "b@x.com -- dup"]) == ["a@x.com"]
  {
    assert "b@x.com -- dup"[0..2][0] == 'b' != WarningMark[0];
    assert !OccursAt("b@x.com -- dup", WarningMark, 0);
    assert OccursAt("b@x.com -- dup", WarningMark, 8);
    assert !IsApplied("b@x.com -- dup");
    assert forall j: nat :: !OccursAt("a@x.com", WarningMark, j);
    assert IsApplied("a@x.com");
    assert ["a@x.com", "b@x.com -- dup"][1..] == ["b@x.com -- dup"];
    assert ["b@x.com -- dup"][1..] == [];
  }

  /** A line that starts with "--" is kept: its position 0 compares equal to `false`. */
  lemma LeadingWarningKept()
    ensures AppliedEntries(["-- note"]) == ["-- note"]
  {
    assert OccursAt("-- note", WarningMark, 0);
    assert IsApplied("-- note");
    assert ["-- note"][1..] == [];
  }
}
