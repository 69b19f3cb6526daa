// String splitting of the express metric generator: cut a string at every
// character that belongs to a set of delimiter characters.
module ExpressUtils {

  datatype Option<T> = None | Some(value: T)

  /** No character of t is a delimiter. */
  predicate NoDelimiter(t: string, delimiters: string)
  {
    forall j :: 0 <= j < |t| ==> t[j] !in delimiters
  }

  /** std::string::find_first_of(delimiters, base): the first position at or after
      base holding a delimiter, or None for npos. */
  function FindFirstOf(s: string, delimiters: string, base: nat): (r: Option<nat>)
    requires base <= |s|
    ensures r.Some? ==> base <= r.value < |s| && s[r.value] in delimiters
                        && NoDelimiter(s[base..r.value], delimiters)
    ensures r.None? ==> NoDelimiter(s[base..], delimiters)
    decreases |s| - base
  {
    if base == |s| then None
    else if s[base] in delimiters then Some(base)
    else
      var r := FindFirstOf(s, delimiters, base + 1);
      assert forall j :: 0 < j < |s| - base ==> s[base..][j] == s[base + 1..][j - 1];
      if r.Some? then
        assert forall j :: 0 < j < r.value - base ==> s[base..r.value][j] == s[base + 1..r.value][j - 1];
        r
      else r
  }

  /** The pieces split produces from position base on: the text up to the next
      delimiter, then the pieces after it; the rest of s once no delimiter is left. */
  function SplitFrom(s: string, delimiters: string, base: nat): (pieces: seq<string>)
    requires base <= |s|
    decreases |s| - base
  {
    match FindFirstOf(s, delimiters, base)
    case None => [s[base..]]
    case Some(found) => [s[base..found]] + SplitFrom(s, delimiters, found + 1)
  }

  /** split of utils.cpp. Each round pushes s.substr(base, found - base), which for
      found == npos is the whole rest of s, and stops after pushing at npos. */
  method Split(s: string, delimiters: string) returns (result: seq<string>)
    ensures result == SplitFrom(s, delimiters, 0)
  {
    result := [];
    var base: nat := 0;
    while true
      invariant base <= |s|
      invariant result + SplitFrom(s, delimiters, base) == SplitFrom(s, delimiters, 0)
      decreases |s| - base
    {
      var found := FindFirstOf(s, delimiters, base);
      if found.None? {
        result := result + [s[base..]];
        return;
      }
      result := result + [s[base..found.value]];
      base := found.value + 1;
    }
  }

  /** The number of characters of t that are delimiters. */
  function Occurrences(t: string, delimiters: string): nat
  {
    if t == [] then 0
    else (if t[0] in delimiters then 1 else 0) + Occurrences(t[1..], delimiters)
  }

  lemma {:induction false} OccurrencesAppend(t: string, u: string, delimiters: string)
    ensures Occurrences(t + u, delimiters) == Occurrences(t, delimiters) + Occurrences(u, delimiters)
  {
    if t != [] {
      assert (t + u)[1..] == t[1..] + u;
      OccurrencesAppend(t[1..], u, delimiters);
    } else {
      assert t + u == u;
    }
  }

  lemma {:induction false} OccurrencesNone(t: string, delimiters: string)
    requires NoDelimiter(t, delimiters)
    ensures Occurrences(t, delimiters) == 0
  {
    if t != [] {
      assert forall j :: 0 <= j < |t| - 1 ==> t[1..][j] == t[j + 1];
      OccurrencesNone(t[1..], delimiters);
    }
  }

  /** Split yields one piece more than there are delimiter characters in s. */
  lemma {:induction false} SplitCount(s: string, delimiters: string, base: nat)
    requires base <= |s|
    ensures |SplitFrom(s, delimiters, base)| == Occurrences(s[base..], delimiters) + 1
    decreases |s| - base
  {
    match FindFirstOf(s, delimiters, base)
    case None =>
      OccurrencesNone(s[base..], delimiters);
    case Some(found) =>
      SplitCount(s, delimiters, found + 1);
      assert s[base..] == s[base..found] + [s[found]] + s[found + 1..];
      OccurrencesAppend(s[base..found] + [s[found]], s[found + 1..], delimiters);
      OccurrencesAppend(s[base..found], [s[found]], delimiters);
      OccurrencesNone(s[base..found], delimiters);
      assert Occurrences([s[found]], delimiters) == 1 by {
        assert [s[found]][1..] == [];
      }
  }

  /** Split always returns at least one piece, and no piece holds a delimiter. */
  lemma {:induction false} SplitPiecesHaveNoDelimiter(s: string, delimiters: string, base: nat)
    requires base <= |s|
    ensures |SplitFrom(s, delimiters, base)| >= 1
    ensures forall p :: p in SplitFrom(s, delimiters, base) ==> NoDelimiter(p, delimiters)
    decreases |s| - base
  {
    match FindFirstOf(s, delimiters, base)
    case None =>
    case Some(found) =>
      SplitPiecesHaveNoDelimiter(s, delimiters, found + 1);
  }

  /** The pieces glued back together with separator c. */
  function Join(pieces: seq<string>, c: char): string
  {
    if pieces == [] then []
    else if |pieces| == 1 then pieces[0]
    else pieces[0] + [c] + Join(pieces[1..], c)
  }

  /** With the single delimiter c, joining the pieces with c gives back the text. */
  lemma {:induction false} SplitJoinRoundTrip(s: string, c: char, base: nat)
    requires base <= |s|
    ensures Join(SplitFrom(s, [c], base), c) == s[base..]
    decreases |s| - base
  {
    match FindFirstOf(s, [c], base)
    case None =>
    case Some(found) =>
      var rest := SplitFrom(s, [c], found + 1);
      assert SplitFrom(s, [c], base) == [s[base..found]] + rest;
      SplitJoinRoundTrip(s, c, found + 1);
      SplitFromNonEmpty(s, [c], found + 1);
      JoinCons(s[base..found], rest, c);
      assert [s[found]] == [c];
      SliceAround(s, base, found);
  }

  lemma SplitFromNonEmpty(s: string, delimiters: string, base: nat)
    requires base <= |s|
    ensures |SplitFrom(s, delimiters, base)| >= 1
  {
  }

  lemma JoinCons(head: string, rest: seq<string>, c: char)
    requires |rest| >= 1
    ensures Join([head] + rest, c) == head + [c] + Join(rest, c)
  {
    assert ([head] + rest)[1..] == rest;
  }

  lemma SliceAround(s: string, base: nat, found: nat)
    requires base <= found < |s|
    ensures s[base..] == s[base..found] + [s[found]] + s[found + 1..]
  {
  }

  /** The edge cases: an empty text gives one empty piece, and leading, doubled and
      trailing delimiters give empty pieces. */
  lemma SplitEdgeCases()
    ensures SplitFrom("", ",", 0) == [""]
    ensures SplitFrom(",a,,", ",", 0) == ["", "a", "", ""]
  {
    assert FindFirstOf(",a,,", ",", 0) == Some(0);
    assert FindFirstOf(",a,,", ",", 1) == Some(2);
    assert FindFirstOf(",a,,", ",", 3) == Some(3);
    assert FindFirstOf(",a,,", ",", 4) == None;
    assert ",a,,"[1..2] == "a";
  }
}
