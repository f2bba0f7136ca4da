/** Substring search over sequences: what `str::find`, `str::rfind` and
    `windows(..).any(..)` compute, each stated by the positions it returns. */
module Search {
  import opened Results

  predicate OccursAt<T(==)>(pattern: seq<T>, text: seq<T>, at: int) {
    0 <= at <= |text| - |pattern| && text[at..at + |pattern|] == pattern
  }

  ghost predicate Contains<T>(pattern: seq<T>, text: seq<T>) {
    exists at :: OccursAt(pattern, text, at)
  }

  /** The first occurrence at or after `from`. */
  function FindFrom<T(==)>(text: seq<T>, pattern: seq<T>, from: nat): (r: Option<nat>)
    ensures r.Some? ==> from <= r.value && OccursAt(pattern, text, r.value)
    ensures forall at :: OccursAt(pattern, text, at) && from <= at ==> r.Some? && r.value <= at
    decreases |text| - from
  {
    if |text| < from + |pattern| then None
    else if OccursAt(pattern, text, from) then Some(from)
    else FindFrom(text, pattern, from + 1)
  }

  function Find<T(==)>(text: seq<T>, pattern: seq<T>): Option<nat> {
    FindFrom(text, pattern, 0)
  }

  /** The last occurrence strictly before position `bound`. */
  function RFindBelow<T(==)>(text: seq<T>, pattern: seq<T>, bound: nat): (r: Option<nat>)
    ensures r.Some? ==> r.value < bound && OccursAt(pattern, text, r.value)
    ensures forall at :: OccursAt(pattern, text, at) && at < bound ==> r.Some? && at <= r.value
  {
    if bound == 0 then None
    else if OccursAt(pattern, text, bound - 1) then Some(bound - 1)
    else RFindBelow(text, pattern, bound - 1)
  }

  function RFind<T(==)>(text: seq<T>, pattern: seq<T>): Option<nat> {
    RFindBelow(text, pattern, |text| + 1)
  }

  /** An occurrence is a character-by-character agreement. */
  lemma OccursPointwise<T>(pattern: seq<T>, text: seq<T>, at: int)
    requires 0 <= at <= |text| - |pattern|
    ensures OccursAt(pattern, text, at) <==> forall k :: 0 <= k < |pattern| ==> text[at + k] == pattern[k]
  {
    if forall k :: 0 <= k < |pattern| ==> text[at + k] == pattern[k] {
      assert text[at..at + |pattern|] == pattern;
    }
    if OccursAt(pattern, text, at) {
      forall k | 0 <= k < |pattern| ensures text[at + k] == pattern[k] {
        assert text[at..at + |pattern|][k] == text[at + k];
      }
    }
  }

  /** Looking at a window of the text sees the same occurrences, shifted. */
  lemma OccursInWindow<T>(pattern: seq<T>, text: seq<T>, lo: nat, hi: nat, at: int)
    requires lo <= hi <= |text|
    ensures OccursAt(pattern, text[lo..hi], at) <==>
        0 <= at && at + lo + |pattern| <= hi && OccursAt(pattern, text, at + lo)
  {
    if 0 <= at && at + lo + |pattern| <= hi {
      var inside, outside := text[lo..hi][at..at + |pattern|], text[at + lo..at + lo + |pattern|];
      assert forall k :: 0 <= k < |pattern| ==> inside[k] == outside[k];
      assert inside == outside;
    }
  }
}
