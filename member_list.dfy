/** The member listing: `getMemberlist` and `getMembersFromTableRows`.
    The root listing page's fifth table holds the members; its second row either
    holds no links (a single page, data from row 2 on) or one link per letter
    sub-page (each with data from row 3 on). */
module MemberList {
  import opened Wrappers
  import opened Dom

  /** One extracted member: the text of a row's second cell, or `None` for the
      `null` that `$tds[1]->nodeValue` reads from a row with fewer than two cells. */
  type Entry = Option<string>

  /** Positional constants of the listing pages. */
  const MemberTable: nat := 4
  const LinkRow: nat := 1
  const AddressCell: nat := 1

  /** The first data row: 2 on a single page, 3 on a letter sub-page. */
  function FirstRowIndex(isSinglePage: bool): nat
  {
    if isSinglePage then 2 else 3
  }

  /** The listing page requested first. */
  function MembersUrl(mailmanUrl: string): string
  {
    mailmanUrl + "/members"
  }

  /** `$trs[$i]->getElementsByTagName("td")[1]->nodeValue`. */
  function CellText(row: Node): Entry
  {
    var tds := Descendants(row, "td");
    if AddressCell < |tds| then Some(NodeText(tds[AddressCell])) else None
  }

  /** A row's entry is the text of its second `td`; a row with fewer cells gives
      PHP's `null` rather than an error. */
  lemma CellTextIsSecondCell(row: Node)
    ensures CellText(row).None? <==> |Descendants(row, "td")| <= AddressCell
    ensures CellText(row).Some? ==> CellText(row).value == NodeText(Descendants(row, "td")[AddressCell])
  {
  }

  /** The entries of the rows from index `i` on, in row order. */
  function RowMembers(rows: seq<Node>, i: nat): seq<Entry>
    decreases |rows| - i
  {
    if i >= |rows| then [] else [CellText(rows[i])] + RowMembers(rows, i + 1)
  }

  /** Skipping `i` rows leaves `max(0, |rows| - i)` entries, entry `j` taken from row `i + j`. */
  lemma {:induction false} RowMembersShape(rows: seq<Node>, i: nat)
    ensures |RowMembers(rows, i)| == if i < |rows| then |rows| - i else 0
    ensures forall j :: 0 <= j < |RowMembers(rows, i)| ==> RowMembers(rows, i)[j] == CellText(rows[i + j])
    decreases |rows| - i
  {
    if i < |rows| {
      RowMembersShape(rows, i + 1);
    }
  }

  /** `getMembersFromTableRows($trs, $isSinglePage)`. */
  method GetMembersFromTableRows(trs: seq<Node>, isSinglePage: bool) returns (memberList: seq<Entry>)
    ensures |memberList| == if FirstRowIndex(isSinglePage) < |trs| then |trs| - FirstRowIndex(isSinglePage) else 0
    ensures forall j :: 0 <= j < |memberList| ==> memberList[j] == CellText(trs[FirstRowIndex(isSinglePage) + j])
    ensures memberList == RowMembers(trs, FirstRowIndex(isSinglePage))
  {
    var firstRowIndex := FirstRowIndex(isSinglePage);
    memberList := [];
    var i := firstRowIndex;
    while i < |trs|
      invariant firstRowIndex <= i && (i <= |trs| || i == firstRowIndex)
      invariant |memberList| == i - firstRowIndex
      invariant forall j :: 0 <= j < |memberList| ==> memberList[j] == CellText(trs[firstRowIndex + j])
    {
      memberList := memberList + [CellText(trs[i])];
      i := i + 1;
    }
    RowMembersShape(trs, firstRowIndex);
  }

  /** `getElementsByTagName("table")[4]->getElementsByTagName("tr")`; a missing
      fifth table is a call on `null`, which is fatal. */
  function TableRows(d: Document): (r: Result<seq<Node>>)
    ensures r.Err? <==> |ElementsByTagName(d, "table")| <= MemberTable
    ensures r.Err? ==> r.error == Missing("table", MemberTable)
    ensures r.Ok? ==> r.value == Descendants(ElementsByTagName(d, "table")[MemberTable], "tr")
  {
    match Item(ElementsByTagName(d, "table"), MemberTable)
    case None => Err(Missing("table", MemberTable))
    case Some(table) => Ok(Descendants(table, "tr"))
  }

  /** `$trs[1]->getElementsByTagName("a")`; a missing second row is fatal. */
  function LetterLinks(trs: seq<Node>): (r: Result<seq<Node>>)
    ensures r.Err? <==> |trs| <= LinkRow
    ensures r.Err? ==> r.error == Missing("tr", LinkRow)
    ensures r.Ok? ==> r.value == Descendants(trs[LinkRow], "a")
  {
    match Item(trs, LinkRow)
    case None => Err(Missing("tr", LinkRow))
    case Some(row) => Ok(Descendants(row, "a"))
  }

  /** The `href` of every link, in document order. */
  function Hrefs(links: seq<Node>): seq<string>
  {
    seq(|links|, i requires 0 <= i < |links| => GetAttribute(links[i], "href"))
  }

  /** The sub-page URLs `getMemberlist` requests after the root page: none unless
      the root page has a fifth table whose second row holds links. */
  function LetterUrls(root: Document): seq<string>
  {
    match TableRows(root)
    case Err(_) => []
    case Ok(trs) =>
      match LetterLinks(trs)
      case Err(_) => []
      case Ok(links) => Hrefs(links)
  }

  /** The members of one letter sub-page. */
  function SubPageMembers(page: Document): Result<seq<Entry>>
  {
    match TableRows(page)
    case Err(e) => Err(e)
    case Ok(trs) => Ok(RowMembers(trs, FirstRowIndex(false)))
  }

  /** The members of the sub-pages at `urls`, merged in order; the first page
      without a fifth table aborts the whole listing. */
  function PagesMembers(urls: seq<string>, fetch: string -> Document): Result<seq<Entry>>
    decreases |urls|
  {
    if urls == [] then Ok([])
    else Concat(PagesMembers(urls[..|urls| - 1], fetch), SubPageMembers(fetch(urls[|urls| - 1])))
  }

  /** What `getMemberlist` returns for the root page `root`. */
  function MemberListing(root: Document, fetch: string -> Document): Result<seq<Entry>>
  {
    match TableRows(root)
    case Err(e) => Err(e)
    case Ok(trs) =>
      match LetterLinks(trs)
      case Err(e) => Err(e)
      case Ok(links) =>
        if |links| == 0 then Ok(RowMembers(trs, FirstRowIndex(true)))
        else PagesMembers(Hrefs(links), fetch)
  }

  /** Sequencing of two listings: the first error wins, otherwise concatenation. */
  function Concat(a: Result<seq<Entry>>, b: Result<seq<Entry>>): Result<seq<Entry>>
  {
    match a
    case Err(_) => a
    case Ok(x) =>
      match b
      case Err(_) => b
      case Ok(y) => Ok(x + y)
  }

  /** `getMemberlist()`. `fetch` stands for the authenticated GET of a URL followed
      by parsing; `requests` lists the URLs requested, in order. */
  method GetMemberlist(mailmanUrl: string, fetch: string -> Document)
    returns (r: Result<seq<Entry>>, requests: seq<string>)
    ensures r == MemberListing(fetch(MembersUrl(mailmanUrl)), fetch)
    ensures |requests| >= 1 && requests[0] == MembersUrl(mailmanUrl)
    ensures requests[1..] <= LetterUrls(fetch(MembersUrl(mailmanUrl)))
    ensures r.Ok? ==> requests[1..] == LetterUrls(fetch(MembersUrl(mailmanUrl)))
    ensures r.Err? && LetterUrls(fetch(MembersUrl(mailmanUrl))) != [] ==> |requests| > 1
    ensures r.Err? && |requests| > 1 ==> && PagesMembers(requests[1..], fetch) == r
                                         && PagesMembers(requests[1..|requests| - 1], fetch).Ok?
  {
    var rootUrl := MembersUrl(mailmanUrl);
    requests := [rootUrl];
    var root := fetch(rootUrl);
    var tables := TableRows(root);
    if tables.Err? {
      r := Err(tables.error);
      return;
    }
    var trs := tables.value;
    var letterLinks := Item(trs, LinkRow);
    if letterLinks.None? {
      r := Err(Missing("tr", LinkRow));
      return;
    }
    var links := Descendants(letterLinks.value, "a");
    if |links| == 0 {
      var single := GetMembersFromTableRows(trs, true);
      r := Ok(single);
      return;
    }

    var urlsForLetters := CollectHrefs(links);
    var pages, subRequests := FetchLetterPages(urlsForLetters, fetch);
    r := pages;
    requests := requests + subRequests;
    assert requests[1..] == subRequests;
    assert |requests| > 1 ==> requests[1..|requests| - 1] == subRequests[..|subRequests| - 1];
  }

  /** The first loop of `getMemberlist`: every link's `href`, in order. */
  method CollectHrefs(links: seq<Node>) returns (urlsForLetters: seq<string>)
    ensures |urlsForLetters| == |links|
    ensures forall j :: 0 <= j < |links| ==> urlsForLetters[j] == GetAttribute(links[j], "href")
    ensures urlsForLetters == Hrefs(links)
  {
    urlsForLetters := [];
    var i := 0;
    while i < |links|
      invariant 0 <= i <= |links|
      invariant |urlsForLetters| == i
      invariant forall j :: 0 <= j < i ==> urlsForLetters[j] == GetAttribute(links[j], "href")
    {
      urlsForLetters := urlsForLetters + [GetAttribute(links[i], "href")];
      i := i + 1;
    }
  }

  /** The second loop of `getMemberlist`: request every sub-page in turn and merge
      its members; `requests` lists the URLs requested before the loop ended. */
  method FetchLetterPages(urlsForLetters: seq<string>, fetch: string -> Document)
    returns (r: Result<seq<Entry>>, requests: seq<string>)
    ensures r == PagesMembers(urlsForLetters, fetch)
    ensures requests <= urlsForLetters
    ensures r.Ok? ==> requests == urlsForLetters
    ensures r.Err? ==> && requests != []
                       && PagesMembers(requests, fetch) == r
                       && PagesMembers(requests[..|requests| - 1], fetch).Ok?
  {
    requests := [];
    var memberList: seq<Entry> := [];
    var k := 0;
    while k < |urlsForLetters|
      invariant 0 <= k <= |urlsForLetters|
      invariant PagesMembers(urlsForLetters[..k], fetch) == Ok(memberList)
      invariant requests == urlsForLetters[..k]
    {
      var url := urlsForLetters[k];
      requests := requests + [url];
      var page := fetch(url);
      var pageRows := TableRows(page);
      PagesStep(urlsForLetters, k, fetch);
      if pageRows.Err? {
        r := Err(pageRows.error);
        PagesStopAtFailure(urlsForLetters, k + 1, fetch);
        assert requests[..|requests| - 1] == urlsForLetters[..k];
        return;
      }
      var m := GetMembersFromTableRows(pageRows.value, false);
      assert SubPageMembers(page) == Ok(m);
      assert PagesMembers(urlsForLetters[..k + 1], fetch) == Ok(memberList + m);
      memberList := memberList + m;
      k := k + 1;
    }
    assert urlsForLetters[..k] == urlsForLetters;
    r := Ok(memberList);
  }

  /** Listing `a + b` is listing `a`, then listing `b`: link order is kept, and a
      failure in `a` is reported before anything in `b` is looked at. */
  lemma {:induction false} PagesAppend(a: seq<string>, b: seq<string>, fetch: string -> Document)
    ensures PagesMembers(a + b, fetch) == Concat(PagesMembers(a, fetch), PagesMembers(b, fetch))
    decreases |b|
  {
    if b == [] {
      assert a + b == a;
      ConcatOkEmpty(PagesMembers(a, fetch));
    } else {
      var b' := b[..|b| - 1];
      assert (a + b)[..|a + b| - 1] == a + b';
      assert (a + b)[|a + b| - 1] == b[|b| - 1];
      PagesAppend(a, b', fetch);
      ConcatAssoc(PagesMembers(a, fetch), PagesMembers(b', fetch), SubPageMembers(fetch(b[|b| - 1])));
    }
  }

  lemma ConcatOkEmpty(a: Result<seq<Entry>>)
    ensures Concat(a, Ok([])) == a
  {
    if a.Ok? {
      assert a.value + [] == a.value;
    }
  }

  lemma ConcatAssoc(a: Result<seq<Entry>>, b: Result<seq<Entry>>, c: Result<seq<Entry>>)
    ensures Concat(Concat(a, b), c) == Concat(a, Concat(b, c))
  {
    if a.Ok? && b.Ok? && c.Ok? {
      assert (a.value + b.value) + c.value == a.value + (b.value + c.value);
    }
  }

  /** Extending the URL prefix by one page. */
  lemma PagesStep(urls: seq<string>, k: nat, fetch: string -> Document)
    requires k < |urls|
    ensures PagesMembers(urls[..k + 1], fetch)
         == Concat(PagesMembers(urls[..k], fetch), SubPageMembers(fetch(urls[k])))
  {
    assert urls[..k + 1][..k] == urls[..k];
  }

  /** Once a prefix of the links fails, the whole listing fails with the same error. */
  lemma PagesStopAtFailure(urls: seq<string>, k: nat, fetch: string -> Document)
    requires k <= |urls|
    requires PagesMembers(urls[..k], fetch).Err?
    ensures PagesMembers(urls, fetch) == PagesMembers(urls[..k], fetch)
  {
    PagesAppend(urls[..k], urls[k..], fetch);
    assert urls[..k] + urls[k..] == urls;
  }

  /** The listing succeeds exactly when every linked sub-page has a fifth table:
      there is no partial result. */
  lemma {:induction false} PagesOkIff(urls: seq<string>, fetch: string -> Document)
    ensures PagesMembers(urls, fetch).Ok?
        <==> forall i :: 0 <= i < |urls| ==> TableRows(fetch(urls[i])).Ok?
    decreases |urls|
  {
    if urls != [] {
      var init := urls[..|urls| - 1];
      PagesOkIff(init, fetch);
      assert PagesMembers(urls, fetch) == Concat(PagesMembers(init, fetch), SubPageMembers(fetch(urls[|urls| - 1])));
      assert SubPageMembers(fetch(urls[|urls| - 1])).Ok? <==> TableRows(fetch(urls[|urls| - 1])).Ok?;
      assert forall i :: 0 <= i < |init| ==> init[i] == urls[i];
    }
  }

  /** The number of members a sub-page contributes: `max(0, rows - 3)`. */
  function SubPageSize(page: Document): nat
  {
    match TableRows(page)
    case Err(_) => 0
    case Ok(trs) => if FirstRowIndex(false) < |trs| then |trs| - FirstRowIndex(false) else 0
  }

  function TotalSize(urls: seq<string>, fetch: string -> Document): nat
    decreases |urls|
  {
    if urls == [] then 0
    else TotalSize(urls[..|urls| - 1], fetch) + SubPageSize(fetch(urls[|urls| - 1]))
  }

  /** A successful paginated listing holds the sum over its pages of `max(0, rows - 3)` entries. */
  lemma {:induction false} PagesLength(urls: seq<string>, fetch: string -> Document)
    requires PagesMembers(urls, fetch).Ok?
    ensures |PagesMembers(urls, fetch).value| == TotalSize(urls, fetch)
    decreases |urls|
  {
    if urls != [] {
      var last := fetch(urls[|urls| - 1]);
      PagesLength(urls[..|urls| - 1], fetch);
      match TableRows(last)
      case Err(_) =>
      case Ok(trs) => RowMembersShape(trs, FirstRowIndex(false));
    }
  }

  /** In a successful listing, the members of the page behind link `u` sit between
      those of the links before it and those of the links after it. */
  lemma PagesInLinkOrder(before: seq<string>, u: string, after: seq<string>, fetch: string -> Document)
    requires PagesMembers(before + [u] + after, fetch).Ok?
    ensures PagesMembers(before, fetch).Ok? && PagesMembers(after, fetch).Ok?
    ensures SubPageMembers(fetch(u)).Ok?
    ensures PagesMembers(before + [u] + after, fetch).value
         == PagesMembers(before, fetch).value
          + SubPageMembers(fetch(u)).value
          + PagesMembers(after, fetch).value
  {
    var front := PagesMembers(before + [u], fetch);
    assert PagesMembers(before + [u] + after, fetch) == Concat(front, PagesMembers(after, fetch)) by {
      PagesAppend(before + [u], after, fetch);
    }
    assert front == Concat(PagesMembers(before, fetch), SubPageMembers(fetch(u))) by {
      PagesAppend(before, [u], fetch);
      SinglePage(u, fetch);
    }
    ConcatOk(front, PagesMembers(after, fetch));
    ConcatOk(PagesMembers(before, fetch), SubPageMembers(fetch(u)));
  }

  lemma ConcatOk(a: Result<seq<Entry>>, b: Result<seq<Entry>>)
    requires Concat(a, b).Ok?
    ensures a.Ok? && b.Ok? && Concat(a, b).value == a.value + b.value
  {
  }

  /** A one-link listing is that link's page. */
  lemma SinglePage(u: string, fetch: string -> Document)
    ensures PagesMembers([u], fetch) == SubPageMembers(fetch(u))
  {
    assert [u][..0] == [];
    assert PagesMembers([u], fetch) == Concat(Ok([]), SubPageMembers(fetch(u)));
    if SubPageMembers(fetch(u)).Ok? {
      assert [] + SubPageMembers(fetch(u)).value == SubPageMembers(fetch(u)).value;
    }
  }

  /** No deduplication: a link that appears twice contributes its page twice. */
  lemma DuplicateLinksRepeatMembers(u: string, fetch: string -> Document)
    requires SubPageMembers(fetch(u)).Ok?
    ensures PagesMembers([u, u], fetch) == Ok(SubPageMembers(fetch(u)).value + SubPageMembers(fetch(u)).value)
  {
    assert [u, u] == [u] + [u];
    PagesAppend([u], [u], fetch);
    SinglePage(u, fetch);
  }

  /** A root page whose link row holds no `a` element is a single page: members
      from row 2 on, `max(0, rows - 2)` of them, and no sub-page is requested. */
  lemma SinglePageListing(root: Document, fetch: string -> Document, trs: seq<Node>)
    requires TableRows(root) == Ok(trs)
    requires |trs| > LinkRow && Descendants(trs[LinkRow], "a") == []
    ensures MemberListing(root, fetch) == Ok(RowMembers(trs, FirstRowIndex(true)))
    ensures |MemberListing(root, fetch).value| == |trs| - FirstRowIndex(true)
    ensures forall j :: 0 <= j < |trs| - 2 ==> MemberListing(root, fetch).value[j] == CellText(trs[2 + j])
    ensures LetterUrls(root) == []
  {
    RowMembersShape(trs, FirstRowIndex(true));
  }

  /** Otherwise the listing is the merge, in link order, of the sub-pages named
      by the links' `href`s, and those are exactly the URLs requested. */
  lemma PaginatedListing(root: Document, fetch: string -> Document, trs: seq<Node>)
    requires TableRows(root) == Ok(trs)
    requires |trs| > LinkRow && Descendants(trs[LinkRow], "a") != []
    ensures LetterUrls(root) == Hrefs(Descendants(trs[LinkRow], "a"))
    ensures MemberListing(root, fetch) == PagesMembers(LetterUrls(root), fetch)
  {
  }

  /** A root page without a fifth table, or whose table has no second row, is a
      fatal missing-structure error, and no letter page is requested. */
  lemma MissingTableIsFatal(root: Document, fetch: string -> Document)
    ensures |ElementsByTagName(root, "table")| <= MemberTable
        ==> MemberListing(root, fetch) == Err(Missing("table", MemberTable)) && LetterUrls(root) == []
    ensures TableRows(root).Ok? && |TableRows(root).value| <= LinkRow
        ==> MemberListing(root, fetch) == Err(Missing("tr", LinkRow)) && LetterUrls(root) == []
  {
  }

  /** Two letter links whose pages each carry three header rows and two data rows
      give four members, page by page and row by row. */
  lemma TwoLetterPages(urls: seq<string>, fetch: string -> Document, rowsA: seq<Node>, rowsB: seq<Node>)
    requires |urls| == 2
    requires TableRows(fetch(urls[0])) == Ok(rowsA) && |rowsA| == 5
    requires TableRows(fetch(urls[1])) == Ok(rowsB) && |rowsB| == 5
    ensures PagesMembers(urls, fetch)
         == Ok([CellText(rowsA[3]), CellText(rowsA[4]), CellText(rowsB[3]), CellText(rowsB[4])])
  {
    assert PagesMembers(urls, fetch) == Ok(RowMembers(rowsA, 3) + RowMembers(rowsB, 3)) by {
      assert urls == [urls[0]] + [urls[1]];
      PagesAppend([urls[0]], [urls[1]], fetch);
      SinglePage(urls[0], fetch);
      SinglePage(urls[1], fetch);
    }
    TwoDataRows(rowsA);
    TwoDataRows(rowsB);
    assert RowMembers(rowsA, 3) + RowMembers(rowsB, 3)
        == [CellText(rowsA[3]), CellText(rowsA[4]), CellText(rowsB[3]), CellText(rowsB[4])];
  }

  lemma TwoDataRows(rows: seq<Node>)
    requires |rows| == 5
    ensures RowMembers(rows, 3) == [CellText(rows[3]), CellText(rows[4])]
  {
    assert RowMembers(rows, 5) == [];
    assert RowMembers(rows, 4) == [CellText(rows[4])] + RowMembers(rows, 5);
    assert RowMembers(rows, 3) == [CellText(rows[3])] + RowMembers(rows, 4);
  }
}
