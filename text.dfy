/** Python's sep.join(parts), and where each part lands in the joined text. */
module Text {

  /** The parts in order, with sep between each two neighbours. */
  function Join(parts: seq<string>, sep: string): string
    decreases |parts|
  {
    if parts == [] then ""
    else if |parts| == 1 then parts[0]
    else parts[0] + sep + Join(parts[1..], sep)
  }

  /** Where part k starts in Join(parts, sep): every earlier part is followed by one sep. */
  function Offset(parts: seq<string>, sep: string, k: nat): (o: nat)
    requires k <= |parts|
    decreases k
  {
    if k == 0 then 0 else Offset(parts, sep, k - 1) + |parts[k - 1]| + |sep|
  }

  /** Length of the joined text: all parts plus one sep between each two. */
  lemma {:induction false} JoinLength(parts: seq<string>, sep: string)
    requires parts != []
    ensures |Join(parts, sep)| == Offset(parts, sep, |parts| - 1) + |parts[|parts| - 1]|
    decreases |parts|
  {
    if |parts| > 1 {
      JoinLength(parts[1..], sep);
      OffsetOfTail(parts, sep, |parts| - 1);
    }
  }

  /** Offsets in the tail are the offsets in the whole shifted by the first part and one sep. */
  lemma {:induction false} OffsetOfTail(parts: seq<string>, sep: string, k: nat)
    requires 1 <= k <= |parts|
    ensures Offset(parts, sep, k) == |parts[0]| + |sep| + Offset(parts[1..], sep, k - 1)
    decreases k
  {
    if k > 1 {
      OffsetOfTail(parts, sep, k - 1);
    }
  }

  /** A slice of the left operand of a concatenation, seen from the whole. */
  lemma SliceLeft(u: string, v: string, a: nat, b: nat)
    requires a <= b <= |u|
    ensures (u + v)[a..b] == u[a..b]
  {
  }

  /** A slice of the right operand of a concatenation, seen from the whole. */
  lemma SliceRight(u: string, v: string, a: nat, b: nat)
    requires a <= b <= |v|
    ensures (u + v)[|u| + a..|u| + b] == v[a..b]
  {
  }

  /** Part k appears verbatim at its offset. */
  lemma {:induction false} JoinAt(parts: seq<string>, sep: string, k: nat)
    requires k < |parts|
    ensures Offset(parts, sep, k) + |parts[k]| <= |Join(parts, sep)|
    ensures Join(parts, sep)[Offset(parts, sep, k)..Offset(parts, sep, k) + |parts[k]|] == parts[k]
    decreases |parts|
  {
    var len := |parts[k]|;
    if |parts| == 1 {
      assert Join(parts, sep)[0..len] == parts[0];
    } else {
      var front := parts[0] + sep;
      var rest := Join(parts[1..], sep);
      assert Join(parts, sep) == front + rest;
      if k == 0 {
        SliceLeft(front, rest, 0, len);
        SliceLeft(parts[0], sep, 0, len);
        assert parts[0][0..len] == parts[0];
      } else {
        JoinAt(parts[1..], sep, k - 1);
        OffsetOfTail(parts, sep, k);
        var o := Offset(parts[1..], sep, k - 1);
        assert parts[1..][k - 1] == parts[k];
        SliceRight(front, rest, o, o + len);
      }
    }
  }

  /** Every part but the first is preceded by sep. */
  lemma {:induction false} JoinSepBefore(parts: seq<string>, sep: string, k: nat)
    requires 0 < k < |parts|
    ensures |sep| <= Offset(parts, sep, k) <= |Join(parts, sep)|
    ensures Join(parts, sep)[Offset(parts, sep, k) - |sep|..Offset(parts, sep, k)] == sep
    decreases |parts|
  {
    var front := parts[0] + sep;
    var rest := Join(parts[1..], sep);
    assert Join(parts, sep) == front + rest;
    OffsetOfTail(parts, sep, k);
    var o := Offset(parts[1..], sep, k - 1);
    if k == 1 {
      SliceLeft(front, rest, |parts[0]|, |front|);
      SliceRight(parts[0], sep, 0, |sep|);
      assert sep[0..|sep|] == sep;
    } else {
      JoinSepBefore(parts[1..], sep, k - 1);
      SliceRight(front, rest, o - |sep|, o);
    }
  }
}
