/**
 * The pick location of an item, read from its variant label
 * (Program.cs:85-88): the group of the first match of the regular
 * expression `\[(.*?)\]`, or "Kho" when there is none. In .NET the `.`
 * matches every character except a line feed, and `*?` is lazy, so a match
 * starting at a `[` ends at the nearest `]` that is reached without
 * crossing a line feed.
 */
module Location {
  import opened Basics

  const DefaultLocation := "Kho"

  /** `.*?\]` can match s[j..k+1]: s[k] is `]` and no line feed lies in s[j..k]. */
  ghost predicate Closes(s: string, j: nat, k: nat)
  {
    j <= k < |s| && s[k] == ']' && forall m :: j <= m < k ==> s[m] != '\n'
  }

  /** `k` is the nearest position the lazy `.*?\]` starting at `j` reaches. */
  ghost predicate NearestClose(s: string, j: nat, k: nat)
  {
    Closes(s, j, k) && forall k' :: j <= k' < k ==> !Closes(s, j, k')
  }

  /** The regex matches at `i`, its group ending just before position `k`. */
  ghost predicate MatchesAt(s: string, i: nat, k: nat)
  {
    i < |s| && s[i] == '[' && NearestClose(s, i + 1, k)
  }

  /** Some match of the regex starts at `i`. */
  ghost predicate OpensAt(s: string, i: nat)
  {
    exists k :: MatchesAt(s, i, k)
  }

  /** Where the lazy `.*?\]` starting at `j` ends, if it can. */
  function CloseFrom(s: string, j: nat): (r: Option<nat>)
    requires j <= |s|
    ensures r.Some? ==> NearestClose(s, j, r.value)
    ensures r.None? ==> forall k :: j <= k < |s| ==> !Closes(s, j, k)
    decreases |s| - j
  {
    if j == |s| || s[j] == '\n' then None
    else if s[j] == ']' then Some(j)
    else
      ClosesStep(s, j);
      CloseFrom(s, j + 1)
  }

  /** Past an ordinary character the lazy scan goes on one position later. */
  lemma ClosesStep(s: string, j: nat)
    requires j < |s| && s[j] != '\n' && s[j] != ']'
    ensures forall k :: Closes(s, j, k) <==> j + 1 <= k && Closes(s, j + 1, k)
  {
  }

  /** The leftmost match at or after `i`, as (opening, closing) positions. */
  function MatchFrom(s: string, i: nat): (r: Option<(nat, nat)>)
    requires i <= |s|
    ensures r.Some? ==> i <= r.value.0 && MatchesAt(s, r.value.0, r.value.1)
    ensures r.Some? ==> forall i' :: i <= i' < r.value.0 ==> !OpensAt(s, i')
    ensures r.None? ==> forall i' :: i <= i' < |s| ==> !OpensAt(s, i')
    decreases |s| - i
  {
    if i == |s| then None
    else if s[i] == '[' && CloseFrom(s, i + 1).Some? then Some((i, CloseFrom(s, i + 1).value))
    else MatchFrom(s, i + 1)
  }

  /** The location derived from a variant label. */
  function LocationOf(name: string): (loc: string)
    ensures loc == DefaultLocation || |loc| + 2 <= |name|
    ensures loc == DefaultLocation || exists i, k :: 0 <= i < k < |name| && name[i] == '[' && name[k] == ']' && loc == name[i + 1..k]
  {
    match MatchFrom(name, 0)
    case None => DefaultLocation
    case Some((i, k)) => name[i + 1..k]
  }

  /** With a match whose opening bracket is the leftmost one that opens any
      match, the location is that match's group. */
  lemma {:induction false} LocationOfMatch(name: string, i: nat, k: nat)
    requires MatchesAt(name, i, k)
    requires forall i' :: 0 <= i' < i ==> !OpensAt(name, i')
    ensures LocationOf(name) == name[i + 1..k]
  {
    assert OpensAt(name, i);
    var m := MatchFrom(name, 0);
    assert m.Some?;
    var (i0, k0) := m.value;
    assert MatchesAt(name, i0, k0);
    assert OpensAt(name, i0);
    assert i0 == i;
    assert Closes(name, i + 1, k0) && Closes(name, i + 1, k);
    assert k0 == k;
  }

  /** Without any match the location is the default one. */
  lemma LocationOfNoMatch(name: string)
    requires forall i :: 0 <= i < |name| ==> !OpensAt(name, i)
    ensures LocationOf(name) == DefaultLocation
  {
    var m := MatchFrom(name, 0);
    assert m.Some? ==> MatchesAt(name, m.value.0, m.value.1) && OpensAt(name, m.value.0);
  }

  /** A location never holds a closing bracket or a line feed (it may be empty). */
  lemma {:induction false} LocationShape(name: string)
    ensures ']' !in LocationOf(name) && '\n' !in LocationOf(name)
  {
    match MatchFrom(name, 0)
    case None =>
    case Some((i, k)) =>
      forall m | i + 1 <= m < k ensures name[m] != ']' && name[m] != '\n' {
        assert !Closes(name, i + 1, m);
      }
  }

  lemma LocationExampleBracket()
    ensures LocationOf("Red [A1-03]") == "A1-03"
  {
    var s := "Red [A1-03]";
    assert s[4] == '[' && s[10] == ']';
    LocationOfMatch(s, 4, 10);
  }

  lemma LocationExampleNone()
    ensures LocationOf("Red") == DefaultLocation
  {
    LocationOfNoMatch("Red");
  }

  lemma LocationExampleFirstOfTwo()
    ensures LocationOf("x [A][B]") == "A"
  {
    var s := "x [A][B]";
    assert s[2] == '[' && s[4] == ']';
    LocationOfMatch(s, 2, 4);
  }

  /** A line feed between the brackets prevents that match. */
  lemma LocationExampleLineFeed()
    ensures LocationOf("a [b\nc] [d]") == "d"
  {
    var s := "a [b\nc] [d]";
    assert s[4] == '\n' && s[8] == '[' && s[10] == ']';
    assert !OpensAt(s, 2) by {
      forall k: nat ensures !MatchesAt(s, 2, k) {
        if 3 <= k < |s| && s[k] == ']' { assert s[4] == '\n'; }
      }
    }
    LocationOfMatch(s, 8, 10);
  }
}
