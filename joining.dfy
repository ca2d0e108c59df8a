/**
 * `Collectors.joining(sep)`: the elements of a stream concatenated with the
 * separator between consecutive elements, and the empty string for none.
 */
module Joining {

  function Join(parts: seq<string>, sep: string): (r: string)
    ensures |r| == TotalLength(parts) + (if |parts| == 0 then 0 else (|parts| - 1) * |sep|)
  {
    if |parts| == 0 then ""
    else if |parts| == 1 then parts[0]
    else parts[0] + sep + Join(parts[1..], sep)
  }

  /** The summed lengths of the parts. */
  function TotalLength(parts: seq<string>): nat
  {
    if parts == [] then 0 else |parts[0]| + TotalLength(parts[1..])
  }

  /** The index of the first `c` in `s`, or `|s|` when there is none. */
  function IndexOfChar(s: string, c: char): (i: nat)
    ensures i <= |s|
    ensures i < |s| ==> s[i] == c
    ensures forall k :: 0 <= k < i ==> s[k] != c
  {
    if s == [] then 0
    else if s[0] == c then 0
    else
      var j := IndexOfChar(s[1..], c);
      assert forall k :: 1 <= k < j + 1 ==> s[k] == s[1..][k - 1];
      j + 1
  }

  /**
   * Cuts a joined string back into its parts: everything up to the first
   * occurrence of the separator's first character, then `|sep|` characters
   * are skipped and the rest is cut the same way.
   */
  function Split(s: string, sep: string): seq<string>
    requires |sep| > 0
    decreases |s|
  {
    var i := IndexOfChar(s, sep[0]);
    if i == |s| then [s]
    else [s[..i]] + Split(s[if i + |sep| <= |s| then i + |sep| else |s|..], sep)
  }

  /**
   * Joining appends the separator and then the new element, as the collector's
   * `StringJoiner.add` does: the parts come out in the order they went in.
   */
  lemma {:induction false} JoinAppend(parts: seq<string>, sep: string, p: string)
    requires |parts| > 0
    ensures Join(parts + [p], sep) == Join(parts, sep) + sep + p
  {
    if |parts| > 1 {
      assert (parts + [p])[1..] == parts[1..] + [p];
      JoinAppend(parts[1..], sep, p);
    }
  }

  lemma {:induction false} SplitNoSeparator(s: string, sep: string)
    requires |sep| > 0
    requires sep[0] !in s
    ensures Split(s, sep) == [s]
  {
    var i := IndexOfChar(s, sep[0]);
    assert i == |s|;
  }

  /**
   * When no part contains the separator's first character, the joined string
   * determines the non-empty list of parts: splitting it gives them back.
   */
  lemma {:induction false} SplitJoin(parts: seq<string>, sep: string)
    requires |parts| > 0 && |sep| > 0
    requires forall p :: p in parts ==> sep[0] !in p
    ensures Split(Join(parts, sep), sep) == parts
  {
    if |parts| == 1 {
      SplitNoSeparator(parts[0], sep);
    } else {
      var s := Join(parts, sep);
      var head := parts[0];
      var tail := Join(parts[1..], sep);
      assert s == head + sep + tail;
      assert sep[0] !in head;
      var i := IndexOfChar(s, sep[0]);
      assert s[|head|] == sep[0];
      assert forall k :: 0 <= k < |head| ==> s[k] == head[k];
      assert i == |head|;
      assert s[..i] == head;
      assert s[i + |sep|..] == tail;
      SplitJoin(parts[1..], sep);
      assert parts == [head] + parts[1..];
    }
  }
}
