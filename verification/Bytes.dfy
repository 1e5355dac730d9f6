/** What the byte-stream programs share: bytes, the size of a partial transfer, and lines on a wire. */
module Bytes {

  type byte = x: int | 0 <= x < 256

  function Min(a: int, b: int): int { if a < b then a else b }
  function Max(a: int, b: int): int { if a > b then a else b }

  /** Bytes a call moves when `most` could be moved and the kernel would like `n`: never none of some. */
  function Moved(n: nat, most: nat): (r: nat)
    ensures r <= most && (r == 0 <==> most == 0)
    ensures 1 <= n <= most ==> r == n
    ensures n >= most ==> r == most
  {
    Min(Max(n, 1), most)
  }

  /** The bytes of a list of lines, one after the other. */
  function Flat(lines: seq<string>): string {
    if lines == [] then "" else Flat(lines[..|lines| - 1]) + lines[|lines| - 1]
  }

  lemma {:induction false} FlatAt(lines: seq<string>, h: nat, j: nat)
    requires h < |lines| && j < |lines[h]|
    ensures |Flat(lines[..h])| + j < |Flat(lines)| && Flat(lines)[|Flat(lines[..h])| + j] == lines[h][j]
    decreases |lines|
  {
    var n := |lines| - 1;
    if h == n {
    } else {
      assert lines[..n][..h] == lines[..h];
      FlatAt(lines[..n], h, j);
    }
  }

  lemma FlatNext(lines: seq<string>, h: nat)
    requires h < |lines|
    ensures Flat(lines[..h + 1]) == Flat(lines[..h]) + lines[h]
  {
    assert lines[..h + 1][..h] == lines[..h];
  }

  /** Whole lines flatten to a prefix. */
  lemma {:induction false} FlatPrefix(lines: seq<string>, h: nat)
    requires h <= |lines|
    ensures Flat(lines[..h]) <= Flat(lines)
    decreases |lines|
  {
    if h == |lines| {
      assert lines[..h] == lines;
    } else {
      assert lines[..|lines| - 1][..h] == lines[..h];
      FlatPrefix(lines[..|lines| - 1], h);
    }
  }

  /** One turn of a write loop that stands at `k` in `l`, after `before`. */
  lemma OneMoreWrite(before: string, l: string, k: nat, r: nat)
    requires k + r <= |l|
    ensures (before + l[..k]) + l[k..k + r] == before + l[..k + r]
    ensures k + r == |l| ==> l[k..] == l[k..k + r] && before + l[..k + r] == before + l
  {
    assert l[..k] + l[k..k + r] == l[..k + r];
    assert l[..|l|] == l && l[k..] == l[k..|l|];
  }

  /** More bytes on a wire leave what was there. */
  lemma Longer(head: string, wire: string, more: string, part: string)
    requires part <= head + wire
    ensures part <= head + (wire + more)
  {
    assert head + (wire + more) == (head + wire) + more;
  }

  lemma SliceKept(wire: string, more: string, i: nat, j: nat)
    requires i <= j <= |wire|
    ensures (wire + more)[i..j] == wire[i..j]
  {
  }
}
