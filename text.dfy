/** Python's `sep.join(parts)`, and the split that undoes it. */
module Text {

  /** Total number of characters in `parts`. */
  function TotalLength(parts: seq<string>): nat
  {
    if parts == [] then 0 else TotalLength(parts[..|parts| - 1]) + |parts[|parts| - 1]|
  }

  /** `sep.join(parts)`: the parts in order, with `sep` between neighbours. */
  function Join(parts: seq<string>, sep: string): (r: string)
    ensures |r| == TotalLength(parts) + (if parts == [] then 0 else (|parts| - 1) * |sep|)
    ensures parts == [] ==> r == ""
    ensures |parts| > 0 ==> parts[0] <= r
  {
    if parts == [] then ""
    else if |parts| == 1 then parts[0]
    else
      assert parts[1..][..|parts| - 2] == parts[1..|parts| - 1];
      TotalLengthFront(parts);
      assert (|parts| - 1) * |sep| == (|parts| - 2) * |sep| + |sep|;
      parts[0] + sep + Join(parts[1..], sep)
  }

  /** TotalLength peeled from the front instead of the back. */
  lemma {:induction false} TotalLengthFront(parts: seq<string>)
    requires parts != []
    ensures TotalLength(parts) == |parts[0]| + TotalLength(parts[1..])
  {
    if |parts| > 1 {
      var init := parts[..|parts| - 1];
      TotalLengthFront(init);
      assert init[1..] == parts[1..][..|parts[1..]| - 1];
    } else {
      assert parts[..0] == [];
      assert parts[1..] == [];
    }
  }

  /** Scans `s`, extending the current piece `cur` until the next `sep`. */
  function SplitFrom(s: string, sep: string, cur: string): seq<string>
    decreases |s|
  {
    if s == [] then [cur]
    else if 0 < |sep| <= |s| && s[..|sep|] == sep then [cur] + SplitFrom(s[|sep|..], sep, "")
    else SplitFrom(s[1..], sep, cur + [s[0]])
  }

  /** Python's `s.split(sep)` for a non-empty separator. */
  function Split(s: string, sep: string): seq<string>
  {
    SplitFrom(s, sep, "")
  }

  /** A piece free of the separator's first character is read through whole. */
  lemma {:induction false} SplitFromPiece(piece: string, rest: string, sep: string, cur: string)
    requires 0 < |sep|
    requires sep[0] !in piece
    ensures SplitFrom(piece + rest, sep, cur) == SplitFrom(rest, sep, cur + piece)
    decreases |piece|
  {
    if piece == [] {
      assert piece + rest == rest;
      assert cur + piece == cur;
    } else {
      var s := piece + rest;
      assert s[0] == piece[0];
      assert s[1..] == piece[1..] + rest;
      SplitFromPiece(piece[1..], rest, sep, cur + [piece[0]]);
      assert cur + [piece[0]] + piece[1..] == cur + piece;
    }
  }

  /** Joining and then splitting on the same separator gives the parts back,
      provided no part contains the separator's first character. */
  lemma {:induction false} SplitJoin(parts: seq<string>, sep: string)
    requires 0 < |sep|
    requires |parts| > 0
    requires forall i :: 0 <= i < |parts| ==> sep[0] !in parts[i]
    ensures Split(Join(parts, sep), sep) == parts
  {
    if |parts| == 1 {
      SplitFromPiece(parts[0], "", sep, "");
      assert parts[0] + "" == parts[0];
      assert "" + parts[0] == parts[0];
    } else {
      var tail := Join(parts[1..], sep);
      assert Join(parts, sep) == parts[0] + (sep + tail);
      SplitFromPiece(parts[0], sep + tail, sep, "");
      assert "" + parts[0] == parts[0];
      assert (sep + tail)[..|sep|] == sep;
      assert (sep + tail)[|sep|..] == tail;
      SplitJoin(parts[1..], sep);
      assert [parts[0]] + parts[1..] == parts;
    }
  }
}
