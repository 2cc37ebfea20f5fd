/** PHP's `strpos` and the loose comparisons `== True` / `== False` that the client
    applies to its result. `strpos` returns either `false` or an int position, and
    under `==` the position 0 is loosely equal to `false` and not to `true`. */
module PhpStrings {
  import opened Wrappers

  /** `needle` occurs in `haystack` starting at offset `i`. */
  predicate OccursAt(haystack: string, needle: string, i: nat)
  {
    i + |needle| <= |haystack| && haystack[i..i + |needle|] == needle
  }

  /** The first occurrence of `needle` at an offset `>= i`, or `None` (PHP `false`). */
  function StrPosFrom(haystack: string, needle: string, i: nat): (r: Option<nat>)
    ensures r.Some? ==> i <= r.value && OccursAt(haystack, needle, r.value)
    ensures r.Some? ==> forall j :: i <= j < r.value ==> !OccursAt(haystack, needle, j)
    ensures r.None? ==> forall j :: i <= j ==> !OccursAt(haystack, needle, j)
    decreases |haystack| - i
  {
    if i + |needle| > |haystack| then None
    else if haystack[i..i + |needle|] == needle then Some(i)
    else StrPosFrom(haystack, needle, i + 1)
  }

  /** `strpos($haystack, $needle)`: the first position of `needle`, `None` for `false`.
      An empty needle is found at 0, as in PHP 8. */
  function StrPos(haystack: string, needle: string): (r: Option<nat>)
    ensures r.Some? ==> OccursAt(haystack, needle, r.value)
    ensures r.Some? ==> forall j :: 0 <= j < r.value ==> !OccursAt(haystack, needle, j)
    ensures r.None? ==> forall j :: !OccursAt(haystack, needle, j)
  {
    StrPosFrom(haystack, needle, 0)
  }

  /** `$p == True` for a strpos result `$p`: only a non-zero position. */
  predicate LooselyTrue(p: Option<nat>)
  {
    p.Some? && p.value != 0
  }

  /** `$p == False` for a strpos result `$p`: `false` itself, or position 0. */
  predicate LooselyFalse(p: Option<nat>)
  {
    p.None? || p.value == 0
  }

  /** "`needle` occurs in `haystack`, but not at its very start". */
  ghost predicate FoundAfterStart(haystack: string, needle: string)
  {
    !OccursAt(haystack, needle, 0) && exists j: nat :: 0 < j && OccursAt(haystack, needle, j)
  }

  /** A needle placed after a non-empty prefix that does not start with it is found after the start. */
  lemma FoundAfterPrefix(prefix: string, needle: string, suffix: string)
    requires prefix != [] && needle != [] && prefix[0] != needle[0]
    ensures FoundAfterStart(prefix + needle + suffix, needle)
  {
    var h := prefix + needle + suffix;
    assert h[|prefix|..|prefix| + |needle|] == needle;
    assert OccursAt(h, needle, |prefix|);
    assert h[0..|needle|][0] == prefix[0];
  }

  /** `strpos(h, n) == True` holds exactly when `n` occurs in `h` away from offset 0. */
  lemma LooselyTrueIff(haystack: string, needle: string)
    ensures LooselyTrue(StrPos(haystack, needle)) <==> FoundAfterStart(haystack, needle)
  {
    var p := StrPos(haystack, needle);
    if FoundAfterStart(haystack, needle) {
      var j: nat :| 0 < j && OccursAt(haystack, needle, j);
      assert p.Some?;
    }
  }

  /** `strpos(h, n) == False` holds exactly when `n` is absent or `h` starts with `n`. */
  lemma LooselyFalseIff(haystack: string, needle: string)
    ensures LooselyFalse(StrPos(haystack, needle))
        <==> OccursAt(haystack, needle, 0) || forall j: nat :: !OccursAt(haystack, needle, j)
  {
  }
}
