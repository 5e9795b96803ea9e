/** The multi-value splitter: `split_into_list`, i.e. `re.split(r'\s\*\s', s)`, and the two
    tests the validators use to decide whether a cell is split at all. */
module Splitter {
  import opened Wrappers
  import opened CharClass

  /** A match of the delimiter pattern `\s\*\s` starts at position k of s. */
  predicate DelimiterAt(s: string, k: nat) {
    k + 3 <= |s| && IsSpace(s[k]) && s[k + 1] == '*' && IsSpace(s[k + 2])
  }

  ghost predicate HasDelimiter(s: string) {
    exists k: nat :: DelimiterAt(s, k)
  }

  /** The leftmost match of the delimiter at or after position `from`, as `re` searches for it. */
  function FindDelimiter(s: string, from: nat): (r: Option<nat>)
    decreases |s| - from
    ensures r.Some? ==> from <= r.value && DelimiterAt(s, r.value)
    ensures r.Some? ==> forall j: nat :: from <= j < r.value ==> !DelimiterAt(s, j)
    ensures r.None? ==> forall j: nat :: from <= j ==> !DelimiterAt(s, j)
  {
    if from + 3 > |s| then None
    else if DelimiterAt(s, from) then Some(from)
    else FindDelimiter(s, from + 1)
  }

  /** `split_into_list`: cut s at every non-overlapping delimiter match, leftmost first.
      The pieces are not trimmed. */
  function Split(s: string): (r: seq<string>)
    decreases |s|
    ensures |r| >= 1
    ensures r == [s] <==> !HasDelimiter(s)
  {
    match FindDelimiter(s, 0)
    case None => [s]
    case Some(k) => [s[..k]] + Split(s[k + 3..])
  }

  /** Split cuts at the first delimiter match and goes on with the rest. */
  lemma SplitAtFirst(s: string, k: nat)
    requires DelimiterAt(s, k)
    requires forall j: nat :: j < k ==> !DelimiterAt(s, j)
    ensures Split(s) == [s[..k]] + Split(s[k + 3..])
  {
    assert FindDelimiter(s, 0) == Some(k);
  }

  /** The cell test `r'\*' in cell` used by Authors, Community and Discipline: the raw string
      r'\*' is the two characters backslash and star. */
  predicate HasEscapedStar(s: string) {
    exists i: nat :: i + 1 < |s| && s[i] == '\\' && s[i + 1] == '*'
  }

  /** Cells joined the way the interchange format writes multiple values. */
  function JoinStars(items: seq<string>): (r: string)
    requires |items| >= 1
    decreases |items|
  {
    if |items| == 1 then items[0] else items[0] + " * " + JoinStars(items[1..])
  }

  /** No piece that Split returns contains a delimiter match. */
  lemma {:induction false} SplitPiecesHaveNoDelimiter(s: string)
    decreases |s|
    ensures forall i :: 0 <= i < |Split(s)| ==> !HasDelimiter(Split(s)[i])
  {
    match FindDelimiter(s, 0)
    case None =>
    case Some(k) =>
      var head := s[..k];
      forall j: nat | DelimiterAt(head, j)
        ensures false
      {
        assert DelimiterAt(s, j);
      }
      SplitPiecesHaveNoDelimiter(s[k + 3..]);
  }

  /** Splitting undoes joining, for items without a star. */
  lemma {:induction false} SplitJoinStars(items: seq<string>)
    requires |items| >= 1
    requires forall i :: 0 <= i < |items| ==> '*' !in items[i]
    decreases |items|
    ensures Split(JoinStars(items)) == items
  {
    var s := JoinStars(items);
    if |items| == 1 {
      assert !HasDelimiter(s);
    } else {
      var k := |items[0]|;
      var rest := JoinStars(items[1..]);
      assert s == items[0] + " * " + rest;
      assert DelimiterAt(s, k);
      assert forall j: nat :: j < k ==> !DelimiterAt(s, j);
      assert FindDelimiter(s, 0) == Some(k);
      assert s[..k] == items[0];
      assert s[k + 3..] == rest;
      SplitJoinStars(items[1..]);
      assert Split(s) == [items[0]] + items[1..];
    }
  }
}
