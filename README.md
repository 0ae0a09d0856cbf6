# ogre-assimp converter front ends: argument handling

This project models, in Dafny, the command-line front ends of the
ogre-assimp converters, which turn models read by Assimp into OGRE meshes,
skeletons and materials:

- `src/main.cpp`, `parseArgs`. One or two positional arguments name a
  source file and an optional destination. The source's extension is the
  lower-cased last `.`-separated piece of its name. With no destination,
  one is derived: a source whose extension is `xml` loses its last four
  characters, and any other source gets `.xml` appended. The destination's
  extension is then worked out the same way. In the source, that last
  write goes through a reference into the source's piece vector.
- `tool/main.cpp`, `parseArgs` and `main`. The option tables filled by
  Ogre's `findCommandLineOpts` and the positional arguments after them
  become an options record. Its `params` hold the loader flags: the
  single-mesh and materials-as-code flags always, plus one flag for each of
  the two 3ds max fixes. The log file and custom animation name are
  replaced only by non-empty option values. `main` returns -1 when there
  are fewer than two arguments. It adds the quiet flag in quiet mode and
  hands the options to the loader. It returns 1 if an Ogre exception
  escapes, otherwise 0.

Loader flags are an abstract set of named flags (`LoaderParams.LoaderFlag`).
The repository has two loader headers that give these flags different
integer values, and each header leaves some flags out. `AssimpLoader.h`
has no quiet flag, and `src/AssimpLoader.h` has no single-mesh or
materials-as-code flag. The bit encoding is therefore modelled per header.
Within each header the flags are distinct powers of two, so OR-ing one
flag into `params` sets exactly that flag and leaves the others unchanged.

Inputs from code outside this model are parameters:
- the argument vector (`args[0]` is the program name);
- the option tables and start index returned by `findCommandLineOpts`;
- where, if anywhere, an Ogre exception is thrown in `main`.

A call to `exit(1)` becomes an error result. Ogre's `StringUtil::split`
(with delimiter `.`) and `StringUtil::toLowerCase` are not part of this
model. Module `OgreStringUtil` states the behaviour the model assumes of
them:
- empty pieces are dropped;
- a non-empty string made only of dots splits into no piece;
- the empty string splits into one empty piece;
- lower-casing maps ASCII `A`-`Z` to `a`-`z`.

## Model

| member | source | states |
|---|---|---|
| `XmlConverterArgs.ParsedOptions` | src/main.cpp:66-123 | More than two positional arguments abort with TooManyArguments, and none aborts with MissingSource, before any extension is worked out. On success the source is args[1] and the log file is "ass.log". sourceExt is the extension of the source and destExt the extension of the destination. With two positionals the destination is args[2] verbatim, and the call fails only when a path splits into no piece. With one positional the destination is the derived one. |
| `XmlConverterArgs.ParseArgs` | src/main.cpp:66-137 | The field-by-field method, with the piece vector as an array and `ext` as an index into it, returns exactly ParsedOptions(args). In particular, writing the destination's extension through `ext` does not change the sourceExt already copied out. |
| `XmlConverterArgs.Extension` | src/main.cpp:96-99 | The extension contains no dot and no upper-case ASCII letter. It is absent exactly when the path is a non-empty run of dots, where the source calls `back()` on an empty vector. |
| `XmlConverterArgs.DropLastFour` | src/main.cpp:106 | `substr(0, size() - 4)` with 64-bit wrap-around and clamping. A source of four or more characters loses its last four. A shorter source is kept whole. |
| `XmlConverterArgs.NonXmlSourceGetsXmlSuffix` | src/main.cpp:108-123 | A source whose extension is not "xml" gets the destination source + ".xml", and that destination's extension is "xml". |
| `XmlConverterArgs.XmlSourceLosesLastFour` | src/main.cpp:101-107 | A source with extension "xml", in any letter case, gets as its destination the source minus its last four characters, or the whole source if it is shorter than four characters. The call fails only when what remains is a non-empty run of dots. |
| `XmlConverterArgs.ShortXmlSourceIsOwnDest` | src/main.cpp:103-106 | For a source shorter than four characters whose extension is "xml" (for example "xml"), the wrapped subtraction makes the destination equal to the source. |
| `XmlConverterArgs.UpperCaseXmlExample` | src/main.cpp:96-123 | "model.XML" with no destination gives destination "model", sourceExt "xml" and destExt "model". |
| `XmlConverterArgs.DerivedDestRoundTrip` | src/main.cpp:101-113 | For a source whose extension is not "xml", deriving a destination from the derived destination gives the original source back. |
| `XmlConverterArgs.ExplicitDestVerbatim` | src/main.cpp:116-123 | An explicitly given destination is used verbatim, whatever either extension is. |
| `OgreStringUtil.LastPiece` | src/main.cpp:96-97 | The piece `back()` refers to contains no dot. It is absent exactly when the path is a non-empty run of dots. |
| `OgreStringUtil.LastPieceOfAppend` | src/main.cpp:110-112 | Appending "." and a non-empty dot-free piece to any path makes that piece the last one, through TokensAppendPiece. |
| `OgreStringUtil.LastPieceOfDotFree` | src/main.cpp:96-97 | A non-empty path with no dot is its own last piece: `back()` refers to the whole name. |
| `AssimpToolArgs.ParamsFor` | tool/main.cpp:114-125 | params always contain the single-mesh and materials-as-code flags. The cut-animation flag is present iff -3ds_ani_fix is on, and the last-run-transforms flag iff -3ds_dae_fix is on. No other flag, in particular not the quiet flag, is present. |
| `AssimpToolArgs.ParseArgs` | tool/main.cpp:81-184 | The method fails with TooManyArguments iff there are more than two positionals, and with MissingSource iff there are none. The source is args[startIndex], and the destination is args[startIndex+1] or "" when absent. quietMode is the -q option, and params are ParamsFor of the unary options. The log file, animation name and speed text are replaced only by non-empty table values. Otherwise they stay "ass.log", "" and unset. |
| `AssimpToolArgs.RunMain` | tool/main.cpp:205-277 | main returns -1 iff there are fewer than two arguments, and then it calls no loader. It exits with 1 when parseArgs aborts. It returns 1 when an exception escapes and 0 when none does. The loader is called iff parsing succeeded and no exception came before the call. The call carries args[startIndex] as source and args[startIndex+1] (or "") as destination, the -aniName table value as animation name, and the -aniSpeed table value as speed text when it is non-empty. Its params hold the quiet flag iff -q is on, and are otherwise ParamsFor of the unary options. |
| `AssimpToolArgs.InitialTables` | tool/main.cpp:94-102 | The seeded tables hold every entry parseArgs later looks up. |
| `AssimpToolArgs.FixOptionsAreIndependent` | tool/main.cpp:116-125 | Turning -3ds_ani_fix on adds exactly the cut-animation flag, and turning -3ds_dae_fix on adds exactly the last-run-transforms flag. |
| `AssimpToolArgs.ParamsMaskUnderRootHeader` | tool/main.cpp:114-125 | With the values of AssimpLoader.h, the integer params is 3, ORed with 4 for -3ds_ani_fix and with 8 for -3ds_dae_fix. |
| `AssimpToolArgs.QuietParamsFitNoHeader` | tool/main.cpp:246-247 | In quiet mode the flags main passes include both the single-mesh and the quiet flag, and no header of the repository defines both. |
| `AssimpToolArgs.DefaultsWithoutOptions` | tool/main.cpp:97-102 | With the tables as seeded: quiet mode is off, params are the base flags, the log file is "ass.log" and the animation name is "". The speed entry is the one-character string with code 1, not "1.0". |
| `LoaderParams.FlagBit` | AssimpLoader.h:23-37 | Every flag value a header defines is a single set bit. |
| `LoaderParams.BitsDisjoint` | src/AssimpLoader.h:73-85 | Two different flags of one header share no bit. |
| `LoaderParams.MaskHasFlag` | AssimpLoader.h:23-37 | A flag is set in the mask of a set of flags exactly when it is in the set. |
| `LoaderParams.MaskRoundTrip` | src/AssimpLoader.h:73-85 | Reading the flags back out of a mask gives the set put in. |
| `LoaderParams.OrInFlag` | tool/main.cpp:119-124 | OR-ing a flag's bit into a mask gives the mask of the set with that flag added. |
| `LoaderParams.OrInFlagKeepsOthers` | tool/main.cpp:116-125 | OR-ing one flag into params leaves every other flag of the header as it was. |

## Left out

- The conversion itself is not part of this model: node neededness, derived transforms, the bone hierarchy, submeshes, animation tracks and material creation. Its headers only declare it, and its implementation is not among the modelled files.
- src/Importer.cpp and src/Importer.h are not part of this model. They create Ogre resources through singletons and call the loader with an options record and a `convert` signature that match neither loader header.
- `main` of src/main.cpp is not modelled. It returns -1 when there are fewer than two arguments, calls parseArgs and opens the log file it names, and returns 1 when an Ogre exception escapes. Otherwise it only sets up and tears down Ogre managers, and it never calls the loader.
- The help text of src/main.cpp (lines 57-61) says that test.mesh becomes test.xml and test.xml becomes test.mesh. parseArgs derives test.mesh.xml and test instead (lines 101-113), and the model follows parseArgs.
- Console output, `help()`, log creation and destruction, and the creation and deletion of the global manager objects in both `main`s are I/O and process plumbing.
- Ogre's `findCommandLineOpts` is not part of this model. Its output, the option tables and the start index, are inputs. The only assumption is that the seeded entries are still present.
- XmlConverterArgs.ParseArgs: when a path splits into no piece (a non-empty run of dots, such as "." or "..xml" with no destination), the source calls `back()` on an empty vector, which is undefined behaviour. The model reports the error NoPathPiece instead.
- XmlConverterArgs.DropLastFour: the stated wrap-around result assumes the source is shorter than 2^64 characters, as every std::string is.
- AssimpToolArgs.ParseArgs: the animation speed is kept as the text handed to `StringConverter::parseReal` (None when the field is left unset). Float parsing is not modelled. Because the float 1.0f is assigned to a string, the seeded "-aniSpeed" entry is the character with code 1, so the help text's default of 1.0 is not what the code stores.
- AssimpToolArgs.RunMain: where an Ogre exception is thrown is an input. The three places are log setup before parseArgs, manager setup after it, and the conversion. The loader's boolean result is ignored, as in the source.
- In `tool/main.cpp` the flag names come from both headers: the single-mesh and materials-as-code flags exist only in AssimpLoader.h, and the quiet flag only in src/AssimpLoader.h. So params are a set of named flags, and the integer encoding is stated per header.
