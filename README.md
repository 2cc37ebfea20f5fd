# Mailman admin-console scraper, modelled in Dafny

This project models the decision logic of `MailmanAPI`, a PHP client for the
Mailman 2 list-administration web pages. Those pages have no machine-readable
API. The client finds content by position in the parsed HTML: the fifth table, the
second row, the first form, and so on. The model covers the five pieces of it that
make decisions:

- **Member extraction** (`getMembersFromTableRows`): skip 2 or 3 header rows, then
  take the text of cell 1 of every remaining row.
- **Member-list pagination** (`getMemberlist`): look at row 1 of table 4 on
  `<url>/members`. With no links in that row the page is the whole list.
  Otherwise every link's `href` is a letter sub-page. Each sub-page is requested in
  link order, and the members are merged without deduplication.
- **Result-list parsing** (`parseResultList`): if the page has an `h5`, keep each
  `li` text of the first `ul` for which `strpos(text, '--') == False`.
- **Change confirmation** (the end of `changeMember`): both addresses must satisfy
  `strpos(h3text, address) == True`.
- **CSRF token lookup** (`getCSRFToken`): the `value` of the first `input` inside
  the first `form`.

A parsed page is an immutable element tree (`Dom.Document`).
`getElementsByTagName` is the pre-order list of descendants with that tag.
`nodeValue` is the concatenated text, and `$list[i]` is `Item`, which is `None` for
PHP's `null`. The authenticated GET-and-parse of a URL is a function parameter
`fetch: string -> Document`. `GetMemberlist` also returns the URLs it requested,
in order.

Modules, one file each: `Wrappers` (Option/Result and the `Missing(tag, index)`
error), `Dom`, `PhpStrings` (`strpos` and PHP loose comparison), `MemberList`,
`ResultList`, `ChangeMember`, `CsrfToken`.

## How PHP semantics are modelled

- Calling a method on `null` is a fatal error in PHP. The model returns
  `Err(Missing(tag, index))` for these cases: a missing fifth table (root or
  sub-page), a missing second row, a missing `ul` once an `h5` exists, a missing
  `form`, and a missing `input`. A fatal error on any sub-page aborts the whole
  listing, so there is never a partial result.
- Reading a *property* of `null` is not fatal in PHP. It raises a warning and
  yields `null`. So a data row with fewer than two `td` cells adds a `null` entry.
  The model writes that entry as `None`, which is why entries have type
  `Option<string>`. Likewise, a page without an `h3` gives `null` text; `strpos`
  treats that as the empty string, and the change check is false, not an error.
  A data row with fewer than two cells is therefore not an error.
- `strpos` returns `false` or the first position. `== True` holds only for a
  position greater than 0. `== False` holds for `false` and for position 0. The
  model keeps both quirks:
  - a result line that *starts* with `--` is kept;
  - an address found at offset 0 of the heading fails the change check.
  A heading such as `"old@x.com changed to new@x.com"` does not confirm the
  change, because the old address is at offset 0;
  `ChangeMember.LeadingAddressExample` proves it.
- An empty needle is found at 0, as in PHP 8. PHP 7 returned `false` instead. Both
  are loosely false and not loosely true, so no check changes.

## Model

| member | source | states |
|---|---|---|
| `Dom.Item` | src/api.php:52 | `$list[i]` is the i-th element exactly when i is in range, and `null` otherwise |
| `Dom.ForestByTagAppend` | src/api.php:52-58 | searching a run of sibling nodes is searching each node in turn, so document order is kept |
| `Dom.ForestByTagComplete` | src/api.php:52-58 | an element is in the search result iff it lies in the searched subtrees and carries the tag |
| `Dom.ElementsByTagName` | src/api.php:52 | `getElementsByTagName` on a document returns exactly its elements with that tag |
| `Dom.Descendants` | src/api.php:54 | `getElementsByTagName` on an element returns exactly its proper descendants with that tag; on a text node it gives nothing, a case no caller reaches (in PHP a text node has no such method, so the call would be fatal) |
| `Dom.GetAttribute` | src/api.php:69 | `getAttribute` gives the attribute's value when the element has it, and the empty string otherwise |
| `Dom.ForestTextAppend` | src/api.php:113 | `nodeValue` of a run of sibling nodes is the text of each node in turn, concatenated |
| `PhpStrings.StrPosFrom` | src/api.php:201 | the result is the first occurrence at or after the start offset, or `false` when there is none |
| `PhpStrings.StrPos` | src/api.php:201 | `strpos` gives the first position where the needle occurs, or `false` when it occurs nowhere |
| `PhpStrings.LooselyTrueIff` | src/api.php:201 | `strpos(h, n) == True` iff n occurs in h but not at offset 0 |
| `PhpStrings.LooselyFalseIff` | src/api.php:235 | `strpos(h, n) == False` iff n does not occur in h or h starts with n |
| `MemberList.CellTextIsSecondCell` | src/api.php:112-113 | a row's entry is the text of its second `td`, and `null` (not an error) when it has fewer than two cells |
| `MemberList.TableRows` | src/api.php:52-54 | the rows are the `tr` elements of the fifth table; without a fifth table it is the fatal missing-table error |
| `MemberList.LetterLinks` | src/api.php:57-58 | the links are the `a` elements of the second row; without a second row it is the fatal missing-row error |
| `MemberList.RowMembersShape` | src/api.php:107-115 | skipping k rows leaves max(0, rows - k) entries; entry j is cell 1 of row k + j |
| `MemberList.GetMembersFromTableRows` | src/api.php:105-117 | returns max(0, rows - k) entries with k = 2 on a single page and 3 otherwise; entry j is cell 1 of row k + j; too few rows give an empty list |
| `MemberList.CollectHrefs` | src/api.php:66-70 | the URL list is the links' `href` values, one per link, in document order |
| `MemberList.FetchLetterPages` | src/api.php:72-92 | merges the sub-pages' offset-3 extractions in link order; the URLs requested are a prefix of the link list, and all of it on success; on failure the last URL requested is the first sub-page that failed, and the listing of the URLs requested is that error |
| `MemberList.GetMemberlist` | src/api.php:38-95 | the result is the listing of the root page `<url>/members`; the root is requested first, then only the letter URLs, all of them on success; when row 1 holds links, a failure always comes after at least one letter URL was requested, and the last URL requested is the one that failed |
| `MemberList.SinglePageListing` | src/api.php:57-64 | with no `a` in row 1 the listing is the offset-2 extraction of the root table, and no sub-page is requested |
| `MemberList.PaginatedListing` | src/api.php:66-94 | with links in row 1 the requested URLs are their `href`s, and the listing is the merge of those pages |
| `MemberList.MissingTableIsFatal` | src/api.php:52-58 | a root page without a fifth table, or whose table has no second row, is the fatal missing-structure error, and no sub-page is requested |
| `MemberList.PagesAppend` | src/api.php:88-91 | listing the links a + b is listing a, then b; an error in a is reported first |
| `MemberList.PagesStopAtFailure` | src/api.php:85-86 | once a sub-page lacks its table, the whole listing fails with that error |
| `MemberList.PagesOkIff` | src/api.php:85-91 | the listing succeeds iff every linked sub-page has a fifth table |
| `MemberList.PagesLength` | src/api.php:88-91 | a successful listing holds the sum over pages of max(0, rows - 3) entries |
| `MemberList.PagesInLinkOrder` | src/api.php:72-92 | a page's members sit between those of the links before it and after it |
| `MemberList.DuplicateLinksRepeatMembers` | src/api.php:68-92 | no deduplication: a link listed twice contributes its members twice |
| `MemberList.TwoLetterPages` | src/api.php:72-94 | two sub-pages with 3 header rows and 2 data rows each give 4 members, in link-then-row order |
| `ResultList.ParseResultList` | src/api.php:212-242 | the method's loop returns exactly the filtered `li` texts of the first `ul` when an `h5` exists, and an empty list otherwise |
| `ResultList.AppliedAppend` | src/api.php:233-238 | filtering a concatenation is concatenating the filtered parts |
| `ResultList.AppliedIsSubsequence` | src/api.php:233-238 | the kept entries are an order-preserving subsequence of the `li` texts, so there are no more of them |
| `ResultList.AppliedMembership` | src/api.php:234-237 | a text is kept iff it is one of the `li` texts and passes the `--` test |
| `ResultList.IsAppliedIff` | src/api.php:235 | an `li` text is kept iff `--` does not occur in it or occurs first at offset 0 |
| `ResultList.NoSuccessHeadingMeansEmpty` | src/api.php:224-241 | without an `h5` the result is empty, not an error |
| `ResultList.ResultEntriesFromFirstList` | src/api.php:229-238 | with an `h5`, a missing `ul` is fatal; otherwise the result is a subsequence of the first `ul`'s `li` texts, no longer than them |
| `ResultList.WarningEntryDropped` | src/api.php:233-238 | `["a@x.com", "b@x.com -- dup"]` gives `["a@x.com"]` |
| `ResultList.LeadingWarningKept` | src/api.php:235 | a line that starts with `--` is kept, since position 0 equals `false` |
| `ChangeMember.HeadingText` | src/api.php:199-201 | the text checked is the `nodeValue` of the first `h3`, and the empty string when there is none |
| `ChangeMember.ChangeConfirmed` | src/api.php:199-201 | the check is true iff an `h3` exists and both addresses occur in its text, neither first at offset 0 |
| `ChangeMember.LeadingAddressRejected` | src/api.php:201 | a heading that starts with either address, old or new, never confirms |
| `ChangeMember.AbsentAddressRejected` | src/api.php:201 | a heading missing either address, old or new, never confirms |
| `ChangeMember.NoHeadingRejected` | src/api.php:199-201 | a page without an `h3` gives false, not an error |
| `ChangeMember.ConfirmedAfterLeadingText` | src/api.php:199-201 | both addresses after leading text that starts with neither confirms the change |
| `ChangeMember.ConfirmedExample` | src/api.php:201 | `"Changed old@x.com to new@x.com"` confirms the change from old@x.com to new@x.com |
| `ChangeMember.LeadingAddressExample` | src/api.php:201 | `"old@x.com changed to new@x.com"` does not confirm it |
| `CsrfToken.PageToken` | src/api.php:263-264 | a token is always the `value` of an `input` inside a `form` of the page; the missing-form error happens exactly when the page has no form; when it has one, the lookup succeeds exactly when the first form holds an input, and fails otherwise with the missing-input error |
| `CsrfToken.FirstInputOfFirstForm` | src/api.php:263-264 | the token is the `value` of the first input of the first form, whatever precedes the form without forms, and whatever follows that input or the form |
| `CsrfToken.WrapperIgnored` | src/api.php:263 | an element other than a form that holds the first form (`html`, `body`, a `div`) changes nothing: the token is that of the wrapped content, so the first-input rule holds at any depth |
| `CsrfToken.InputWrapperIgnored` | src/api.php:264 | inside the first form, an element other than an input that holds the first input changes nothing, so the first input counts however deeply it is nested |
| `CsrfToken.NestedFirstInput` | src/api.php:263-264 | on any page shaped `html > body > form > div > [input, ...]`, the shape `loadHTML` gives, the token is the first input's `value` |
| `CsrfToken.NestedTokenExample` | src/api.php:263-264 | on `html > body > form > div > [input "tok", input "x"]` the token is `"tok"` |
| `CsrfToken.GetCSRFToken` | src/api.php:249-265 | on the page `<url>/<page>`, a token is the `value` of an `input` inside one of its forms; the missing-form error happens exactly when it has no form; otherwise it succeeds exactly when the first form holds an input, and fails with the missing-input error when it does not |
| `CsrfToken.LaterContentIgnored` | src/api.php:263 | content after the first form, even another form, never changes the outcome |
| `CsrfToken.EarlierInputsIgnored` | src/api.php:263-264 | inputs outside any form before the first form are ignored |
| `CsrfToken.NoFormIsFatal` | src/api.php:263-264 | a page without a form is the fatal missing-form error |
| `CsrfToken.TokenExample` | src/api.php:263-264 | a form whose first input has `value="abc123"` gives `"abc123"`, despite an earlier stray input |

## Left out

- HTTP transport, cookies, TLS verification and the login POST in the constructor (src/api.php:19-32): network I/O. The model takes requests as the `fetch` parameter.
- `fetch` is total: every request yields a parsed page. Guzzle throws on connection failures, and, with its default `http_errors`, on 4xx/5xx responses. Such an exception ends `getMemberlist` between two sub-page requests, and neither the result nor the `requests` list of the model can show it.
- HTML parsing with DOMDocument/libxml, and the toggling of `libxml_use_internal_errors`: a foreign library. The model starts from the parsed tree.
- Node kinds other than elements and text (comments, CDATA, entities): the queries used here ignore them, except that the model leaves their text out of `nodeValue`.
- The POST bodies of `addMembers`, `removeMembers` and `changeMember`, including `join(chr(10), ...)`: literal form-field maps. Those operations are modelled only through the pieces they call: `getCSRFToken`, `parseResultList` and the `h3` check.
- All `config*` methods (src/api.php:274-700): static form-field literals that return the raw HTTP response.
- The warnings and notices PHP prints when reading a property of `null`: only the values they produce are modelled.
- PHP strings are byte strings. The model uses Dafny character sequences, which changes nothing for the byte-wise `strpos` comparisons used here.
- The idempotence of the token lookup is not a separate lemma. `PageToken` is a Dafny function, so the same document always gives the same token.
