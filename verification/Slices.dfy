/** Cutting sequences in pieces. */
module Slices {
  lemma Cut<T>(s: seq<T>, w: nat, i: nat)
    requires w <= i <= |s|
    ensures s[..w] + s[w..] == s && s[..w] + s[w..i] == s[..i]
    ensures s[..i][w..] == s[w..][..i - w] == s[w..i]
  {
  }

  lemma Piece<T>(s: seq<T>, at: nat, m: seq<T>)
    requires at + |m| <= |s| && s[at..at + |m|] == m && m != []
    ensures s[at] == m[0] && s[..at] + m == s[..at + |m|]
  {
  }

  lemma Drop<T>(s: seq<T>, w: nat, n: nat)
    requires w + n <= |s|
    ensures s[w..][n..] == s[w + n..]
  {
  }

  lemma ThreeParts<T>(x: seq<T>, y: seq<T>, z: seq<T>)
    ensures var s := x + (y + z); s[..|x|] == x && s[|x|..|x| + |y|] == y && s[|x| + |y|..] == z
  {
  }

  lemma CutInThree<T>(s: seq<T>, j: nat, k: nat)
    requires j <= k <= |s|
    ensures s == s[..j] + (s[j..k] + s[k..]) && s[..k] == s[..j] + s[j..k]
  {
  }

  lemma Middle<T>(s: seq<T>, i: nat, j: nat, k: nat)
    requires i <= j <= k <= |s|
    ensures s[i..k] == s[i..j] + s[j..k] && s[..k] == s[..j] + s[j..k]
  {
  }

  lemma Spliced<T>(a: seq<T>, b: seq<T>, c: seq<T>)
    ensures var s := a + b + c;
            s[..|a|] == a && s[|a| + |b|..] == c && forall k :: 0 <= k < |b| ==> s[|a| + k] == b[k]
  {
  }

  /** Taking the last element off, and putting it back. */
  lemma AllButLast<T>(s: seq<T>)
    requires s != []
    ensures s[..|s| - 1] + [s[|s| - 1]] == s
  {
  }
}
