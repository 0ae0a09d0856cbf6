/** The AssimpLoader::LoaderParams flags. The options record carries them as
    a set of named flags; the two versions of the loader header in the
    repository give them different bit values (and each leaves some out), so
    the bit encoding is modelled per header. Within either header the flags
    it defines are distinct powers of two, which is what makes OR-ing in one
    flag leave every other flag as it was. */
module LoaderParams {
  import opened Wrappers

  datatype LoaderFlag =
    | GenerateSingleMesh
    | GenerateMaterialsAsCode
    | CutAnimationWhereNoFurtherChange
    | UseLastRunNodeDerivedTransforms
    | QuietMode

  /** RootHeader is AssimpLoader.h at the top of the repository,
      SrcHeader is src/AssimpLoader.h. */
  datatype LoaderHeader = RootHeader | SrcHeader

  /** The bit a header gives a flag, or None if the header has no such flag. */
  function FlagBit(h: LoaderHeader, f: LoaderFlag): (b: Option<bv32>)
    ensures b.Some? ==> b.value != 0 && b.value & (b.value - 1) == 0
  {
    match (h, f)
    case (RootHeader, GenerateSingleMesh) => Some(1 << 0)
    case (RootHeader, GenerateMaterialsAsCode) => Some(1 << 1)
    case (RootHeader, CutAnimationWhereNoFurtherChange) => Some(1 << 2)
    case (RootHeader, UseLastRunNodeDerivedTransforms) => Some(1 << 3)
    case (RootHeader, QuietMode) => None
    case (SrcHeader, CutAnimationWhereNoFurtherChange) => Some(1 << 0)
    case (SrcHeader, UseLastRunNodeDerivedTransforms) => Some(1 << 1)
    case (SrcHeader, QuietMode) => Some(1 << 2)
    case (SrcHeader, _) => None
  }

  predicate Defines(h: LoaderHeader, f: LoaderFlag) {
    FlagBit(h, f).Some?
  }

  /** Every flag of s has a value in header h. */
  predicate DefinesAll(h: LoaderHeader, s: set<LoaderFlag>) {
    forall f :: f in s ==> Defines(h, f)
  }

  /** The bit of f if f is in s and h defines it, else no bit. */
  function BitIfIn(h: LoaderHeader, s: set<LoaderFlag>, f: LoaderFlag): bv32 {
    if f in s && Defines(h, f) then FlagBit(h, f).value else 0
  }

  /** The integer `params` that holds the flags s under header h: the OR of
      their bits. */
  function Mask(h: LoaderHeader, s: set<LoaderFlag>): bv32 {
    BitIfIn(h, s, GenerateSingleMesh)
    | BitIfIn(h, s, GenerateMaterialsAsCode)
    | BitIfIn(h, s, CutAnimationWhereNoFurtherChange)
    | BitIfIn(h, s, UseLastRunNodeDerivedTransforms)
    | BitIfIn(h, s, QuietMode)
  }

  /** Testing a flag in a mask: `(params & flag) != 0`. */
  predicate HasFlag(h: LoaderHeader, m: bv32, f: LoaderFlag)
    requires Defines(h, f)
  {
    m & FlagBit(h, f).value != 0
  }

  /** The flags of header h that are set in m. */
  function FlagsOf(h: LoaderHeader, m: bv32): (s: set<LoaderFlag>)
    ensures DefinesAll(h, s)
  {
    set f: LoaderFlag | f in {GenerateSingleMesh, GenerateMaterialsAsCode, CutAnimationWhereNoFurtherChange,
                              UseLastRunNodeDerivedTransforms, QuietMode}
                        && Defines(h, f) && HasFlag(h, m, f)
  }

  /** Two different flags of one header never share a bit. */
  lemma BitsDisjoint(h: LoaderHeader, f: LoaderFlag, g: LoaderFlag)
    requires Defines(h, f) && Defines(h, g) && f != g
    ensures FlagBit(h, f).value & FlagBit(h, g).value == 0
  {
  }

  /** Masking Mask(h, s) with the bit of one flag isolates that flag's
      contribution. */
  lemma MaskAndBit(h: LoaderHeader, s: set<LoaderFlag>, f: LoaderFlag)
    requires Defines(h, f)
    ensures Mask(h, s) & FlagBit(h, f).value == BitIfIn(h, s, f)
  {
    match h
    case RootHeader => RootMaskAndBit(s, f);
    case SrcHeader => SrcMaskAndBit(s, f);
  }

  /** Under RootHeader the five contributions to a mask are each zero or
      their own bit 1, 2, 4, 8 (QuietMode has none), so masking the OR with
      one of those bits gives back that contribution. */
  lemma RootBitsSeparate(a: bv32, b: bv32, c: bv32, d: bv32, e: bv32)
    requires (a == 0 || a == 1) && (b == 0 || b == 2) && (c == 0 || c == 4) && (d == 0 || d == 8) && e == 0
    ensures (a | b | c | d | e) & 1 == a && (a | b | c | d | e) & 2 == b
    ensures (a | b | c | d | e) & 4 == c && (a | b | c | d | e) & 8 == d
  {
  }

  /** Under SrcHeader only the last three contributions can be non-zero,
      each zero or its own bit 1, 2, 4. */
  lemma SrcBitsSeparate(a: bv32, b: bv32, c: bv32, d: bv32, e: bv32)
    requires a == 0 && b == 0 && (c == 0 || c == 1) && (d == 0 || d == 2) && (e == 0 || e == 4)
    ensures (a | b | c | d | e) & 1 == c && (a | b | c | d | e) & 2 == d
    ensures (a | b | c | d | e) & 4 == e
  {
  }

  lemma RootMaskAndBit(s: set<LoaderFlag>, f: LoaderFlag)
    requires Defines(RootHeader, f)
    ensures Mask(RootHeader, s) & FlagBit(RootHeader, f).value == BitIfIn(RootHeader, s, f)
  {
    var h := RootHeader;
    RootBitsSeparate(BitIfIn(h, s, GenerateSingleMesh), BitIfIn(h, s, GenerateMaterialsAsCode),
      BitIfIn(h, s, CutAnimationWhereNoFurtherChange), BitIfIn(h, s, UseLastRunNodeDerivedTransforms),
      BitIfIn(h, s, QuietMode));
  }

  lemma SrcMaskAndBit(s: set<LoaderFlag>, f: LoaderFlag)
    requires Defines(SrcHeader, f)
    ensures Mask(SrcHeader, s) & FlagBit(SrcHeader, f).value == BitIfIn(SrcHeader, s, f)
  {
    var h := SrcHeader;
    SrcBitsSeparate(BitIfIn(h, s, GenerateSingleMesh), BitIfIn(h, s, GenerateMaterialsAsCode),
      BitIfIn(h, s, CutAnimationWhereNoFurtherChange), BitIfIn(h, s, UseLastRunNodeDerivedTransforms),
      BitIfIn(h, s, QuietMode));
  }

  /** A flag header h defines is set in Mask(h, s) exactly when it is in s. */
  lemma MaskHasFlag(h: LoaderHeader, s: set<LoaderFlag>, f: LoaderFlag)
    requires Defines(h, f)
    ensures HasFlag(h, Mask(h, s), f) <==> f in s
  {
    MaskAndBit(h, s, f);
  }

  /** Reading the flags back out of a mask gives the flags put in. */
  lemma MaskRoundTrip(h: LoaderHeader, s: set<LoaderFlag>)
    requires DefinesAll(h, s)
    ensures FlagsOf(h, Mask(h, s)) == s
  {
    forall f | f in s
      ensures f in FlagsOf(h, Mask(h, s))
    {
      MaskHasFlag(h, s, f);
    }
    forall f | f in FlagsOf(h, Mask(h, s))
      ensures f in s
    {
      MaskHasFlag(h, s, f);
    }
  }

  /** Under RootHeader, OR-ing one flag's bit into a mask replaces that
      flag's contribution by the bit and keeps the others. */
  lemma RootBitsOrIn(a: bv32, b: bv32, c: bv32, d: bv32, e: bv32)
    requires (a == 0 || a == 1) && (b == 0 || b == 2) && (c == 0 || c == 4) && (d == 0 || d == 8) && e == 0
    ensures (a | b | c | d | e) | 1 == 1 | b | c | d | e
    ensures (a | b | c | d | e) | 2 == a | 2 | c | d | e
    ensures (a | b | c | d | e) | 4 == a | b | 4 | d | e
    ensures (a | b | c | d | e) | 8 == a | b | c | 8 | e
  {
  }

  /** The same under SrcHeader, for its three flags. */
  lemma SrcBitsOrIn(a: bv32, b: bv32, c: bv32, d: bv32, e: bv32)
    requires a == 0 && b == 0 && (c == 0 || c == 1) && (d == 0 || d == 2) && (e == 0 || e == 4)
    ensures (a | b | c | d | e) | 1 == a | b | 1 | d | e
    ensures (a | b | c | d | e) | 2 == a | b | c | 2 | e
    ensures (a | b | c | d | e) | 4 == a | b | c | d | 4
  {
  }

  /** `params |= flag` on a mask is adding the flag to the set of flags. */
  lemma OrInFlag(h: LoaderHeader, s: set<LoaderFlag>, f: LoaderFlag)
    requires Defines(h, f)
    ensures Mask(h, s) | FlagBit(h, f).value == Mask(h, s + {f})
  {
    var a, b, c, d, e := BitIfIn(h, s, GenerateSingleMesh), BitIfIn(h, s, GenerateMaterialsAsCode),
      BitIfIn(h, s, CutAnimationWhereNoFurtherChange), BitIfIn(h, s, UseLastRunNodeDerivedTransforms),
      BitIfIn(h, s, QuietMode);
    match h
    case RootHeader => RootBitsOrIn(a, b, c, d, e);
    case SrcHeader => SrcBitsOrIn(a, b, c, d, e);
  }

  /** Setting one flag with `|=` leaves every other flag of the header as it
      was: the flags are distinct bits. */
  lemma OrInFlagKeepsOthers(h: LoaderHeader, s: set<LoaderFlag>, f: LoaderFlag, g: LoaderFlag)
    requires Defines(h, f) && Defines(h, g) && g != f
    ensures HasFlag(h, Mask(h, s) | FlagBit(h, f).value, g) <==> HasFlag(h, Mask(h, s), g)
  {
    OrInFlag(h, s, f);
    MaskHasFlag(h, s + {f}, g);
    MaskHasFlag(h, s, g);
  }
}
