/** Command-line handling of the OgreAssimpConverter front end in
    src/main.cpp: one or two positional arguments name the source file and
    an optional destination; the destination is derived from the source when
    missing, and both file extensions are worked out from the names. */
module XmlConverterArgs {
  import opened Wrappers
  import opened OgreStringUtil

  /** The options record parseArgs fills in and returns by value. */
  datatype ConvertOptions = ConvertOptions(
    source: string,
    dest: string,
    sourceExt: string,
    destExt: string,
    logFile: string)

  /** Why parseArgs does not return options. TooManyArguments and
      MissingSource are the two aborts through exit(1); NoPathPiece is a path
      that splits into no piece at all, for which the source calls `back()`
      on an empty vector. */
  datatype ArgError = TooManyArguments | MissingSource | NoPathPiece(path: string)

  const DefaultLogFile := "ass.log"

  /** std::string::size_type is 64 bits wide. */
  const SizeModulus := 0x1_0000_0000_0000_0000

  /** The lower-cased last '.'-piece of a path: its extension. */
  function Extension(path: string): (r: Option<string>)
    ensures r.None? <==> path != [] && AllDots(path)
    ensures r.Some? ==> '.' !in r.value && forall i :: 0 <= i < |r.value| ==> !IsUpper(r.value[i])
  {
    match LastPiece(path)
    case None => None
    case Some(p) => Some(ToLower(p))
  }

  /** `source.substr(0, source.size() - 4)`: the subtraction wraps modulo
      2^64 and substr clamps its length to what is there, so a source shorter
      than four characters is kept whole. (A std::string is always shorter
      than 2^64 characters.) */
  function DropLastFour(source: string): (r: string)
    ensures 4 <= |source| < SizeModulus ==> r == source[..|source| - 4]
    ensures |source| < 4 ==> r == source
  {
    var count := (|source| - 4) % SizeModulus;
    if count <= |source| then source[..count] else source
  }

  /** The destination parseArgs derives when none is given: an "xml" source
      loses its last four characters, anything else gains ".xml". None when
      the source splits into no piece. */
  function DerivedDest(source: string): (r: Option<string>)
  {
    match Extension(source)
    case None => None
    case Some(ext) => if ext == "xml" then Some(DropLastFour(source)) else Some(source + ".xml")
  }

  /** What parseArgs returns for the argument vector args (args[0] is the
      program name), or why it aborts. */
  function ParsedOptions(args: seq<string>): (r: Result<ConvertOptions, ArgError>)
    ensures |args| > 3 ==> r == Failure(TooManyArguments)
    ensures |args| <= 1 ==> r == Failure(MissingSource)
    ensures r.Success? ==> |args| in {2, 3} && r.value.source == args[1]
    ensures r.Success? ==> r.value.logFile == DefaultLogFile
    ensures r.Success? ==> Extension(r.value.source) == Some(r.value.sourceExt)
    ensures r.Success? ==> Extension(r.value.dest) == Some(r.value.destExt)
    ensures |args| == 3 && r.Success? ==> r.value.dest == args[2]
    ensures |args| == 3 ==> (r.Failure? <==> Extension(args[1]).None? || Extension(args[2]).None?)
    ensures |args| == 2 && r.Success? ==> DerivedDest(args[1]) == Some(r.value.dest)
  {
    if |args| > 3 then Failure(TooManyArguments)
    else if |args| <= 1 then Failure(MissingSource)
    else
      var source := args[1];
      match Extension(source)
      case None => Failure(NoPathPiece(source))
      case Some(sourceExt) =>
        var dest := if |args| > 2 then args[2] else DerivedDest(source).value;
        match Extension(dest)
        case None => Failure(NoPathPiece(dest))
        case Some(destExt) => Success(ConvertOptions(source, dest, sourceExt, destExt, DefaultLogFile))
  }

  /** parseArgs as written: fields are filled one by one, the pieces of the
      source are held in an array, and `ext` is the index of its last slot,
      through which the destination's extension is later written over the
      source's. */
  method ParseArgs(args: seq<string>) returns (r: Result<ConvertOptions, ArgError>)
    ensures r == ParsedOptions(args)
  {
    var opts := ConvertOptions("", "", "", "", DefaultLogFile);
    var source: Option<string> := None;
    var dest: Option<string> := None;
    var startIndex := 1;

    if |args| > startIndex {
      source := Some(args[startIndex]);
    }
    if |args| > startIndex + 1 {
      dest := Some(args[startIndex + 1]);
    }
    if |args| > startIndex + 2 {
      return Failure(TooManyArguments);
    }
    if source.None? {
      return Failure(MissingSource);
    }

    opts := opts.(source := source.value);
    var pieces := Split(opts.source);
    if |pieces| == 0 {
      return Failure(NoPathPiece(opts.source));
    }
    var srcparts := new string[|pieces|](i requires 0 <= i < |pieces| => pieces[i]);
    var ext := srcparts.Length - 1;
    srcparts[ext] := ToLower(srcparts[ext]);
    opts := opts.(sourceExt := srcparts[ext]);

    if dest.None? {
      if opts.sourceExt == "xml" {
        opts := opts.(dest := DropLastFour(opts.source));
      } else {
        opts := opts.(dest := opts.source + ".xml");
      }
    } else {
      opts := opts.(dest := dest.value);
    }

    var dstparts := Split(opts.dest);
    if |dstparts| == 0 {
      return Failure(NoPathPiece(opts.dest));
    }
    srcparts[ext] := dstparts[|dstparts| - 1];
    srcparts[ext] := ToLower(srcparts[ext]);
    opts := opts.(destExt := srcparts[ext]);
    r := Success(opts);
  }

  /** A source whose extension is not "xml" gets ".xml" appended, and the
      derived destination's extension is "xml". */
  lemma NonXmlSourceGetsXmlSuffix(program: string, source: string)
    requires Extension(source).Some? && Extension(source) != Some("xml")
    ensures ParsedOptions([program, source]).Success?
    ensures ParsedOptions([program, source]).value.dest == source + ".xml"
    ensures ParsedOptions([program, source]).value.destExt == "xml"
  {
    LastPieceOfAppend(source, "xml");
    assert source + ".xml" == source + "." + "xml";
  }

  /** A source with extension "xml" (in any case) loses its last four
      characters; this fails with NoPathPiece only when what remains is
      a non-empty run of dots, such as for "..xml". */
  lemma XmlSourceLosesLastFour(program: string, source: string)
    requires Extension(source) == Some("xml") && |source| < SizeModulus
    ensures var r := ParsedOptions([program, source]);
      && (r.Success? <==> !(DropLastFour(source) != [] && AllDots(DropLastFour(source))))
      && (r.Success? ==> r.value.dest == (if |source| >= 4 then source[..|source| - 4] else source))
  {
  }

  /** A source that is too short to lose four characters, such as "xml"
      itself, is its own derived destination. */
  lemma ShortXmlSourceIsOwnDest(program: string, source: string)
    requires Extension(source) == Some("xml") && |source| < 4
    ensures ParsedOptions([program, source]) == Success(ConvertOptions(source, source, "xml", "xml", DefaultLogFile))
  {
  }

  /** The extension of "model.XML" is "xml". */
  lemma ExtensionOfModelXml()
    ensures Extension("model.XML") == Some("xml")
  {
    LastPieceOfAppend("model", "XML");
    assert "model.XML" == "model" + "." + "XML";
    assert ToLower("XML") == "xml";
  }

  /** The extension of "model" is "model". */
  lemma ExtensionOfModel()
    ensures Extension("model") == Some("model")
  {
    LastPieceOfDotFree("model");
    assert ToLower("model") == "model";
  }

  /** "model.XML" with no destination gives destination "model". */
  lemma UpperCaseXmlExample()
    ensures ParsedOptions(["conv", "model.XML"]) == Success(ConvertOptions("model.XML", "model", "xml", "model", DefaultLogFile))
  {
    ExtensionOfModelXml();
    ExtensionOfModel();
    XmlSourceLosesLastFour("conv", "model.XML");
    assert "model.XML"[..5] == "model";
    assert "model"[0] != '.';
  }

  /** Deriving a destination twice from a source whose extension is not "xml"
      gives the source back: ".xml" is appended, then taken off again. */
  lemma DerivedDestRoundTrip(source: string)
    requires Extension(source).Some? && Extension(source) != Some("xml")
    requires |source| + 4 < SizeModulus
    ensures DerivedDest(source).Some?
    ensures DerivedDest(DerivedDest(source).value) == Some(source)
  {
    var dest := source + ".xml";
    assert DerivedDest(source) == Some(dest);
    assert Extension(dest) == Some("xml") by {
      LastPieceOfAppend(source, "xml");
      assert dest == source + "." + "xml";
      assert ToLower("xml") == "xml";
    }
    assert DropLastFour(dest) == source by {
      assert dest[..|dest| - 4] == source;
    }
  }

  /** An explicitly given destination is used verbatim, whatever either
      extension is, as long as both paths split into a piece. */
  lemma ExplicitDestVerbatim(program: string, source: string, dest: string)
    requires Extension(source).Some? && Extension(dest).Some?
    ensures ParsedOptions([program, source, dest]) == Success(ConvertOptions(
      source, dest, Extension(source).value, Extension(dest).value, DefaultLogFile))
  {
  }
}
