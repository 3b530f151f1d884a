# myini lookup layer, modelled in Dafny

Package `myini` gives a program its configuration. It loads an INI document once. After that the program reads parameters by key from an ordered list of candidate sections. This project models the lookup layer that runs once the document is loaded:

- **Key existence.** `IsParamExists` does a linear search over a section's keys.
- **Section dump.** `GetSectionValues` copies a section's keys and raw texts into a fresh map.
- **Typed getters.** `GetString`, `GetInt`, `GetBool` and `GetFloat` share one rule. The first listed section that holds the key wins. If no listed section holds it:
  - when the parameter is optional, the getter returns the caller's default;
  - when it is mandatory, the getter returns the type's zero value and logs one critical message.
- **Not-found message.** `notFoundError` builds the quoted, comma-separated list of the searched sections for that critical message.

Modules:

- `Optional` (optional.dfy): the `Option` type.
- `GoStrings` (gostrings.dfy): Go's `strings.TrimSpace`.
- `IniDoc` (inidoc.dfy): the loaded document. It maps each section name to its keys in file order, each with its raw text. A section the document lacks reads as empty. `KeyStrings` gives a section's key names in file order, which is how the model represents the library's `KeyStrings` (myini.go:65, 81). `UniqueKeys` says that no key appears twice in a section. This file also holds the float64 values the float getter returns.
- `MyIni` (myini.dfy): the package itself.
  - The class `IniFile` holds the document in place of the package global `iniFile`. It also holds the INI library's three text conversions as total functions that may fail. The library's `MustX(d)` then means "the converted value, else `d`".
  - Each getter returns its result and the list of critical messages it would log.
  - The getters are proved against `Lookup`, the specification of the section fallback. Lemmas about `Lookup` state how fallback chains compose, and that sections after the first holder are never consulted.

Go's variadic `sectionName ...string` may be empty (myini.go:110, 134, 163, 187). The loop then finds nothing, so the key counts as not found. The model does the same.

## Model

| member | source | states |
|---|---|---|
| `GoStrings.TrimSpace` | myini.go:116 | the result is the middle of the input; everything cut from both ends is white space; the result neither starts nor ends with white space |
| `GoStrings.TrimSpaceOf` | myini.go:116 | for white space `a` and `b`, and a middle `m` that neither starts nor ends with white space, trimming `a + m + b` gives exactly `m` |
| `GoStrings.TrimSpaceIdempotent` | myini.go:116 | trimming an already trimmed value changes nothing |
| `GoStrings.TrimSpaceExample` | myini.go:116 | a value stored as `"  hello  "` reads back as `"hello"` |
| `IniDoc.RawValueOfEntry` | myini.go:68 | when each key of a section is unique, the text read for an entry's key is that entry's own raw text |
| `MyIni.FirstHolder` | myini.go:114-120 | the index found holds the key and no earlier listed section does; no index means no listed section holds the key |
| `MyIni.Lookup` | myini.go:114-120 | a value is found iff some listed section holds the key; an empty section list finds nothing |
| `MyIni.FirstHolderIs` | myini.go:114-120 | the search stops at the first holding section: any holding section preceded only by non-holders is the one chosen |
| `MyIni.LookupAppend` | myini.go:114-120 | searching the list `a + b` gives `a`'s result when `a` finds the key, and `b`'s result otherwise |
| `MyIni.LookupIgnoresLaterSections` | myini.go:114-120 | sections listed after the first holder are never consulted: changing them changes no getter's input |
| `MyIni.QuoteJoin` | myini.go:96-102 | the section list is empty exactly when no section was searched |
| `MyIni.QuoteJoinSnoc` | myini.go:97-102 | each further name is appended at the end, after `", "` when the list is not empty, wrapped in double quotes |
| `MyIni.SplitQuoteJoin` | myini.go:96-104 | the message's section list names every searched section in order; it reads back as exactly those names if and only if no name contains a double quote |
| `MyIni.SplitItemsNoQuotes` | myini.go:101 | no name read back from a quoted list contains a double quote, so a name with one can never be read back |
| `MyIni.QuoteJoinAmbiguous` | myini.go:101 | with a double quote inside a section name, one name and two names give the same list |
| `MyIni.NotFoundError` | myini.go:95-105 | the critical message names the parameter and the searched sections' quoted list; an empty list is ""; the list reads back as the section names if and only if no name contains a double quote |
| `MyIni.IniFile.constructor` | myini.go:50 | the object holds the loaded document, whose sections have unique keys, and the library's conversions |
| `MyIni.IniFile.GetSectionValues` | myini.go:60-73 | the map's keys are exactly the section's keys, each mapped to its raw, untrimmed text, which is that entry's own text; an absent section gives the empty map |
| `MyIni.IniFile.IsParamExists` | myini.go:76-91 | true iff some entry of the section is keyed exactly `name`; false for an absent or empty section |
| `MyIni.IniFile.GetString` | myini.go:110-131 | found: the first holder's text, trimmed, with no message. Not found and optional: the default, with no message. Not found and mandatory: `""` and exactly one critical message naming the key and every listed section |
| `MyIni.IniFile.GetInt` | myini.go:134-160 | found: the converted value, or -999999999 when the text does not convert. Not found: the default, or 0 with one critical message when mandatory. A "bad value" message is logged iff the result is -999999999, even when that number is the caller's default. At most one message |
| `MyIni.IniFile.GetBool` | myini.go:163-184 | found: the converted value, or the default when the text does not convert. Not found: the default, or `false` with one critical message when mandatory. Never a "bad value" message |
| `MyIni.IniFile.GetFloat` | myini.go:187-213 | GetInt's rules over float64: sentinel -999999999999, zero value 0. A "bad value" message is logged iff the result equals the sentinel |

## Left out

- `OpenIniFile` (myini.go:26-57) is not modelled. It expands a file pattern and hands the files to the INI library's loader. The loaded document is taken as an input instead: the first matched file is the primary source and the rest are extra sources layered over it.
- The library's parsing, its merging of several files, and its text conversions are not part of this model. The int, bool and float64 conversions are functions the object is given, with no fixed syntax.
- The library creates an empty section on demand when a missing one is asked for. Here a missing section simply reads as empty, and the document never changes.
- Duplicate keys within one section are collapsed by the library when it loads the document. `IniFile.Valid` records this as `IniDoc.UniqueKeys`: the constructor requires it and every method relies on it.
- The library's `MustInt`, `MustBool` and `MustFloat64` are believed to write the default back into the key's text after a failed conversion. The library is not part of this model, so that write-back is not modelled: the document never changes. A later `GetString` or `GetSectionValues` on such a key would then see the default's text in the program, and the original text in the model.
- Before a successful load, and after a load whose parsing fails (myini.go:50), `iniFile` is nil. The calls `iniFile.Section` at myini.go:63, 79 and 116 would then dereference nil. In the model an `IniFile` object always holds a document, so this case cannot arise.
- The logger is not modelled. Each getter returns the structured critical messages in order instead of formatted text.
- The package globals `IniFileName`, `ServiceCommand` and `iniFile`, and the unsynchronised reload they allow, are not modelled. The document is a field of an object.
- `GoStrings.TrimSpace` works on Unicode scalar values with the fixed Unicode White_Space set. It does not model how Go treats bytes that are not valid UTF-8.
- `IniDoc.Float64` keeps only what the float getter compares: finite values as exact reals, the two infinities, and NaN. It has no rounding and does not tell +0 from -0.
- Go's `int` is 64 bits wide. The model uses unbounded integers because the getters do no arithmetic on them.
