/** The two Ogre string utilities both converters rely on, as this model
    states them: splitting a path at '.' and ASCII lower-casing.

    Split follows Ogre's StringUtil::split with the delimiter "." and no
    split limit: empty pieces between, before or after dots are dropped, so
    an all-dot string gives no piece at all, while the empty string gives one
    empty piece. */
module OgreStringUtil {
  import opened Wrappers

  /** True when every character of s is a dot (vacuously for ""). */
  predicate AllDots(s: string) {
    forall i :: 0 <= i < |s| ==> s[i] == '.'
  }

  /** Length of the leading run of s that holds no dot. */
  function RunLength(s: string): (k: nat)
    ensures k <= |s|
    ensures forall i :: 0 <= i < k ==> s[i] != '.'
    ensures k < |s| ==> s[k] == '.'
  {
    if s == [] || s[0] == '.' then 0 else 1 + RunLength(s[1..])
  }

  /** The maximal non-empty dot-free pieces of s, in order. */
  function Tokens(s: string): (r: seq<string>)
    ensures forall i :: 0 <= i < |r| ==> r[i] != [] && '.' !in r[i]
    ensures r == [] <==> AllDots(s)
    decreases |s|
  {
    if s == [] then []
    else if s[0] == '.' then Tokens(s[1..])
    else
      var k := RunLength(s);
      [s[..k]] + Tokens(s[k..])
  }

  /** StringUtil::split(s, "."). */
  function Split(s: string): (r: seq<string>)
    ensures |r| == 0 <==> s != [] && AllDots(s)
    ensures s == [] ==> r == [""]
    ensures s != [] ==> forall i :: 0 <= i < |r| ==> r[i] != [] && '.' !in r[i]
  {
    if s == [] then [""] else Tokens(s)
  }

  /** The last piece of Split(s), i.e. what `split(s, ".").back()` refers to;
      None when the split is empty and `back()` has nothing to refer to. */
  function LastPiece(s: string): (r: Option<string>)
    ensures r.None? <==> s != [] && AllDots(s)
    ensures r.Some? ==> '.' !in r.value
  {
    var parts := Split(s);
    if |parts| == 0 then None else Some(parts[|parts| - 1])
  }

  predicate IsUpper(c: char) {
    'A' <= c <= 'Z'
  }

  function LowerChar(c: char): (d: char)
    ensures !IsUpper(d)
    ensures !IsUpper(c) ==> d == c
  {
    if IsUpper(c) then (c as int + 32) as char else c
  }

  /** StringUtil::toLowerCase: each ASCII capital becomes its small letter,
      every other character stays. */
  function ToLower(s: string): (r: string)
    ensures |r| == |s|
    ensures forall i :: 0 <= i < |s| ==> r[i] == LowerChar(s[i])
  {
    if s == [] then [] else [LowerChar(s[0])] + ToLower(s[1..])
  }

  /** RunLength is determined by its contract: any k with a dot-free prefix
      that stops at a dot or at the end is the run length. */
  lemma RunLengthUnique(s: string, k: nat)
    requires k <= |s|
    requires forall i :: 0 <= i < k ==> s[i] != '.'
    requires k < |s| ==> s[k] == '.'
    ensures RunLength(s) == k
  {
  }

  /** Appending a dot and a non-empty dot-free piece b to any string adds
      exactly b as a new last token. */
  lemma {:induction false} TokensAppendPiece(a: string, b: string)
    requires b != [] && '.' !in b
    ensures Tokens(a + "." + b) == Tokens(a) + [b]
    decreases |a|
  {
    var s := a + "." + b;
    if a == [] {
      assert s == "." + b;
      assert s[1..] == b;
      RunLengthUnique(b, |b|);
      assert b[..|b|] == b && b[|b|..] == [];
    } else if a[0] == '.' {
      assert s[1..] == a[1..] + "." + b;
      TokensAppendPiece(a[1..], b);
    } else {
      var k := RunLength(a);
      RunLengthUnique(s, k);
      assert s[..k] == a[..k];
      assert s[k..] == a[k..] + "." + b;
      TokensAppendPiece(a[k..], b);
    }
  }

  /** The last piece of a + "." + b is b when b is a non-empty dot-free piece. */
  lemma LastPieceOfAppend(a: string, b: string)
    requires b != [] && '.' !in b
    ensures LastPiece(a + "." + b) == Some(b)
  {
    TokensAppendPiece(a, b);
  }

  /** A non-empty path with no dot is its own last piece. */
  lemma LastPieceOfDotFree(s: string)
    requires s != [] && '.' !in s
    ensures LastPiece(s) == Some(s)
  {
    RunLengthUnique(s, |s|);
    assert s[..|s|] == s && s[|s|..] == [];
  }
}
