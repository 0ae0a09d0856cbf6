/** Command-line handling and exit status of the OgreAssimpConverter tool in
    tool/main.cpp. parseArgs turns the option tables filled by Ogre's
    findCommandLineOpts and the positional arguments after them into an
    options record whose `params` are the loader flags; main returns -1 when
    there is nothing to convert, adds the quiet flag, hands the options to the
    loader and returns 1 if an Ogre exception escapes, else 0. */
module AssimpToolArgs {
  import opened Wrappers
  import opened LoaderParams

  /** The options record parseArgs fills in and returns by value.
      animationSpeedText is the text handed to StringConverter::parseReal,
      or None when parseArgs leaves the speed field unset. */
  datatype ToolOptions = ToolOptions(
    source: string,
    dest: string,
    quietMode: bool,
    logFile: string,
    customAnimationName: string,
    params: set<LoaderFlag>,
    animationSpeedText: Option<string>)

  /** Ogre's UnaryOptionList and BinaryOptionList after findCommandLineOpts
      has recorded the options found on the command line. */
  datatype OptionTables = OptionTables(unary: map<string, bool>, binary: map<string, string>)

  /** The two aborts of parseArgs, both through exit(1). */
  datatype UsageError = TooManyArguments | MissingSource

  /** Where an Ogre::Exception escapes inside main's try block: while the
      log manager and its temporary log are set up (before parseArgs), while
      the other managers are set up (after it), or in the conversion. */
  datatype ThrowSite = LogSetup | ManagerSetup | Conversion

  /** How the process ends: main returning a code, or exit() called by
      parseArgs. */
  datatype Termination = Returned(code: int) | Exited(code: int)

  /** The arguments main passes to AssimpLoader::convert. */
  datatype ConvertCall = ConvertCall(
    source: string,
    customAnimationName: string,
    params: set<LoaderFlag>,
    dest: string,
    animationSpeedText: Option<string>)

  const DefaultLogFile := "ass.log"

  const AbortStatus := 1

  /** The flags every conversion asks for. */
  const BaseParams: set<LoaderFlag> := {GenerateSingleMesh, GenerateMaterialsAsCode}

  /** The tables as parseArgs seeds them before findCommandLineOpts runs.
      The float 1.0f assigned to the "-aniSpeed" entry is converted to the
      character with code 1, so that entry holds a one-character string. */
  function InitialTables(): (t: OptionTables)
    ensures Seeded(t)
  {
    OptionTables(
      map["-q" := false, "-3ds_ani_fix" := false, "-3ds_dae_fix" := false],
      map["-log" := DefaultLogFile, "-aniName" := "", "-aniSpeed" := [1 as char]])
  }

  /** Every entry parseArgs looks up is present: the seeding puts them there
      and findCommandLineOpts only changes the values of existing entries. */
  predicate Seeded(t: OptionTables) {
    && "-q" in t.unary && "-3ds_ani_fix" in t.unary && "-3ds_dae_fix" in t.unary
    && "-log" in t.binary && "-aniName" in t.binary && "-aniSpeed" in t.binary
  }

  /** Exactly one or two positional arguments follow the options. */
  predicate PositionalsAccepted(numArgs: nat, startIndex: nat) {
    startIndex < numArgs <= startIndex + 2
  }

  /** The loader flags parseArgs composes from the unary options: the base
      flags, plus one flag for each of the two 3ds max fixes. */
  function ParamsFor(unary: map<string, bool>): (p: set<LoaderFlag>)
    requires "-3ds_ani_fix" in unary && "-3ds_dae_fix" in unary
    ensures BaseParams <= p
    ensures CutAnimationWhereNoFurtherChange in p <==> unary["-3ds_ani_fix"]
    ensures UseLastRunNodeDerivedTransforms in p <==> unary["-3ds_dae_fix"]
    ensures p <= BaseParams + {CutAnimationWhereNoFurtherChange, UseLastRunNodeDerivedTransforms}
  {
    BaseParams
    + (if unary["-3ds_ani_fix"] then {CutAnimationWhereNoFurtherChange} else {})
    + (if unary["-3ds_dae_fix"] then {UseLastRunNodeDerivedTransforms} else {})
  }

  /** parseArgs: startIndex is what findCommandLineOpts returned, the index
      of the first positional argument in args (args[0] is the program). */
  method ParseArgs(args: seq<string>, tables: OptionTables, startIndex: nat)
    returns (r: Result<ToolOptions, UsageError>)
    requires Seeded(tables)
    ensures r == Failure(TooManyArguments) <==> |args| > startIndex + 2
    ensures r == Failure(MissingSource) <==> |args| <= startIndex
    ensures r.Success? <==> PositionalsAccepted(|args|, startIndex)
    ensures r.Success? ==> r.value.source == args[startIndex]
    ensures r.Success? ==> r.value.dest == if |args| > startIndex + 1 then args[startIndex + 1] else ""
    ensures r.Success? ==> (r.value.quietMode <==> tables.unary["-q"])
    ensures r.Success? ==> r.value.params == ParamsFor(tables.unary)
    ensures r.Success? && tables.binary["-log"] != "" ==> r.value.logFile == tables.binary["-log"]
    ensures r.Success? && tables.binary["-log"] == "" ==> r.value.logFile == DefaultLogFile
    ensures r.Success? && tables.binary["-aniName"] != "" ==> r.value.customAnimationName == tables.binary["-aniName"]
    ensures r.Success? && tables.binary["-aniName"] == "" ==> r.value.customAnimationName == ""
    ensures r.Success? && tables.binary["-aniSpeed"] != "" ==> r.value.animationSpeedText == Some(tables.binary["-aniSpeed"])
    ensures r.Success? && tables.binary["-aniSpeed"] == "" ==> r.value.animationSpeedText.None?
  {
    var opts := ToolOptions("", "", false, DefaultLogFile, "", {}, None);
    var source: Option<string> := None;
    var dest: Option<string> := None;

    if tables.unary["-q"] {
      opts := opts.(quietMode := true);
    }

    opts := opts.(params := BaseParams);
    if tables.unary["-3ds_ani_fix"] {
      opts := opts.(params := opts.params + {CutAnimationWhereNoFurtherChange});
    }
    if tables.unary["-3ds_dae_fix"] {
      opts := opts.(params := opts.params + {UseLastRunNodeDerivedTransforms});
    }

    if tables.binary["-log"] != "" {
      opts := opts.(logFile := tables.binary["-log"]);
    }
    if tables.binary["-aniSpeed"] != "" {
      opts := opts.(animationSpeedText := Some(tables.binary["-aniSpeed"]));
    }
    if tables.binary["-aniName"] != "" {
      opts := opts.(customAnimationName := tables.binary["-aniName"]);
    }

    if |args| > startIndex {
      source := Some(args[startIndex]);
    }
    if |args| > startIndex + 1 {
      dest := Some(args[startIndex + 1]);
    }
    if |args| > startIndex + 2 {
      return Failure(TooManyArguments);
    }
    if source.None? {
      return Failure(MissingSource);
    }
    opts := opts.(source := source.value);
    if dest.Some? {
      opts := opts.(dest := dest.value);
    }
    r := Success(opts);
  }

  /** main, with the exception (if any) that escapes its try block given as
      `thrown`. Returns how the process ends and the call made to the
      loader, if one is made. */
  method RunMain(args: seq<string>, tables: OptionTables, startIndex: nat, thrown: Option<ThrowSite>)
    returns (exit: Termination, call: Option<ConvertCall>)
    requires Seeded(tables)
    ensures |args| < 2 ==> exit == Returned(-1) && call.None?
    ensures exit == Returned(-1) ==> |args| < 2
    ensures exit.Exited? <==> |args| >= 2 && thrown != Some(LogSetup) && !PositionalsAccepted(|args|, startIndex)
    ensures exit.Exited? ==> exit.code == AbortStatus
    ensures exit == Returned(0) <==> |args| >= 2 && thrown.None? && PositionalsAccepted(|args|, startIndex)
    ensures exit == Returned(1) <==>
      |args| >= 2 && (thrown == Some(LogSetup) || (thrown.Some? && PositionalsAccepted(|args|, startIndex)))
    ensures call.Some? <==>
      |args| >= 2 && PositionalsAccepted(|args|, startIndex) && (thrown.None? || thrown == Some(Conversion))
    ensures call.Some? ==> call.value.source == args[startIndex]
    ensures call.Some? ==> (QuietMode in call.value.params <==> tables.unary["-q"])
    ensures call.Some? ==> call.value.params - {QuietMode} == ParamsFor(tables.unary)
    ensures call.Some? ==> call.value.dest == if |args| > startIndex + 1 then args[startIndex + 1] else ""
    ensures call.Some? ==> call.value.customAnimationName == tables.binary["-aniName"]
    ensures call.Some? ==>
              call.value.animationSpeedText == if tables.binary["-aniSpeed"] != "" then Some(tables.binary["-aniSpeed"]) else None
  {
    call := None;
    // An exception comes from one of the three places or from none; main
    // returns 0 only when none was thrown.
    assert thrown.Some? ==> thrown.value.LogSetup? || thrown.value.ManagerSetup? || thrown.value.Conversion?;
    if |args| < 2 {
      return Returned(-1), None;
    }

    var retCode := 0;
    if thrown == Some(LogSetup) {
      retCode := 1;
    } else {
      var parsed := ParseArgs(args, tables, startIndex);
      if parsed.Failure? {
        return Exited(AbortStatus), None;
      }
      var opts := parsed.value;
      if thrown == Some(ManagerSetup) {
        retCode := 1;
      } else {
        if opts.quietMode {
          opts := opts.(params := opts.params + {QuietMode});
        }
        call := Some(ConvertCall(opts.source, opts.customAnimationName, opts.params, opts.dest, opts.animationSpeedText));
        if thrown == Some(Conversion) {
          retCode := 1;
        }
      }
    }
    exit := Returned(retCode);
  }

  /** Switching -3ds_ani_fix on adds the cut-animation flag and nothing
      else; likewise -3ds_dae_fix and the last-run-transforms flag. */
  lemma FixOptionsAreIndependent(unary: map<string, bool>)
    requires "-3ds_ani_fix" in unary && "-3ds_dae_fix" in unary
    ensures var off := ParamsFor(unary["-3ds_ani_fix" := false]);
      && CutAnimationWhereNoFurtherChange !in off
      && ParamsFor(unary["-3ds_ani_fix" := true]) == off + {CutAnimationWhereNoFurtherChange}
    ensures var off := ParamsFor(unary["-3ds_dae_fix" := false]);
      && UseLastRunNodeDerivedTransforms !in off
      && ParamsFor(unary["-3ds_dae_fix" := true]) == off + {UseLastRunNodeDerivedTransforms}
  {
  }

  /** Under AssimpLoader.h's values the integer params is 3, with bit 4 for
      -3ds_ani_fix and bit 8 for -3ds_dae_fix OR-ed in. */
  lemma ParamsMaskUnderRootHeader(unary: map<string, bool>)
    requires "-3ds_ani_fix" in unary && "-3ds_dae_fix" in unary
    ensures DefinesAll(RootHeader, ParamsFor(unary))
    ensures Mask(RootHeader, ParamsFor(unary))
      == 3 | (if unary["-3ds_ani_fix"] then 4 else 0) | (if unary["-3ds_dae_fix"] then 8 else 0)
  {
    var p := ParamsFor(unary);
    var ani, dae := unary["-3ds_ani_fix"], unary["-3ds_dae_fix"];
    assert BitIfIn(RootHeader, p, GenerateSingleMesh) == 1;
    assert BitIfIn(RootHeader, p, GenerateMaterialsAsCode) == 2;
    assert BitIfIn(RootHeader, p, CutAnimationWhereNoFurtherChange) == if ani then 4 else 0;
    assert BitIfIn(RootHeader, p, UseLastRunNodeDerivedTransforms) == if dae then 8 else 0;
    assert BitIfIn(RootHeader, p, QuietMode) == 0;
    RootBitsSeparate(1, 2, if ani then 4 else 0, if dae then 8 else 0, 0);
  }

  /** In quiet mode main hands the loader both GenerateSingleMesh and
      QuietMode, and neither header of the repository defines both. */
  lemma QuietParamsFitNoHeader(h: LoaderHeader, unary: map<string, bool>)
    requires "-3ds_ani_fix" in unary && "-3ds_dae_fix" in unary
    ensures !DefinesAll(h, ParamsFor(unary) + {QuietMode})
  {
    assert GenerateSingleMesh in ParamsFor(unary) + {QuietMode};
  }

  /** With no option given the tables stay as seeded: quiet mode off, log
      file "ass.log", no custom animation name, only the base flags, and the
      speed text is the one-character string with code 1 (not "1.0"). */
  lemma DefaultsWithoutOptions()
    ensures var t := InitialTables();
      && ParamsFor(t.unary) == BaseParams
      && !t.unary["-q"]
      && t.binary["-log"] == DefaultLogFile
      && t.binary["-aniName"] == ""
      && t.binary["-aniSpeed"] == [1 as char] && t.binary["-aniSpeed"] != "1.0"
  {
  }
}
