/** The lookup layer of package myini: key existence, section dump, and the
    typed getters that search an ordered list of sections, fall back to a
    default or report a missing mandatory parameter, and flag bad values.

    The loaded document is held by an `IniFile` object instead of a package
    global.  The INI library's text-to-value conversions are given to the
    object as total functions that may fail; the library's `MustX(d)` is then
    "the converted value, else `d`".  The logger is replaced by the list of
    critical messages each getter returns. */
module MyIni {
  import opened Optional
  import opened GoStrings
  import opened IniDoc

  /** What the getters would hand to the logger; every message of this
      package is logged at the critical level. */
  datatype Critical =
    | Undefined(name: string, sectList: string)  // parameter undefined in the listed sections
    | BadValue(name: string, want: Scalar)       // parameter text is not of the wanted type

  datatype Scalar = IntScalar | FloatScalar

  /** The sentinel handed to the integer conversion. */
  const BadInt: int := -999999999

  /** The sentinel handed to the float conversion. */
  const BadFloat: Float64 := Finite(-999999999999.0)

  const FloatZero: Float64 := Finite(0.0)

  // ---------------------------------------------------------------------------
  // Section fallback: the first listed section holding the key wins.

  /** The position in `sections` of the first section that holds `name`. */
  function FirstHolder(doc: Document, name: string, sections: seq<string>): (r: Option<nat>)
    ensures r.Some? ==> r.value < |sections| && HasParam(doc, sections[r.value], name)
    ensures r.Some? ==> forall j :: 0 <= j < r.value ==> !HasParam(doc, sections[j], name)
    ensures r.None? ==> forall j :: 0 <= j < |sections| ==> !HasParam(doc, sections[j], name)
  {
    if |sections| == 0 then None
    else if HasParam(doc, sections[0], name) then Some(0)
    else match FirstHolder(doc, name, sections[1..])
      case None => None
      case Some(i) => Some(i + 1)
  }

  /** The raw text the getters resolve `name` to, if any listed section has it. */
  function Lookup(doc: Document, name: string, sections: seq<string>): (r: Option<string>)
    ensures r.Some? <==> exists j :: 0 <= j < |sections| && HasParam(doc, sections[j], name)
    ensures sections == [] ==> r == None
  {
    match FirstHolder(doc, name, sections)
    case None => None
    case Some(i) => Some(RawValue(doc, sections[i], name))
  }

  /** A holding section preceded only by sections without the key is the one
      the search settles on. */
  lemma {:induction false} FirstHolderIs(doc: Document, name: string, sections: seq<string>, i: nat)
    requires i < |sections| && HasParam(doc, sections[i], name)
    requires forall j :: 0 <= j < i ==> !HasParam(doc, sections[j], name)
    ensures FirstHolder(doc, name, sections) == Some(i)
  {
    if i > 0 {
      assert !HasParam(doc, sections[0], name);
      forall j | 0 <= j < i - 1 ensures !HasParam(doc, sections[1..][j], name) {
        assert sections[1..][j] == sections[j + 1];
      }
      FirstHolderIs(doc, name, sections[1..], i - 1);
    }
  }

  /** Searching `a + b` is searching `a`, then, only if `a` has nothing,
      searching `b`. */
  lemma {:induction false} LookupAppend(doc: Document, name: string, a: seq<string>, b: seq<string>)
    ensures Lookup(doc, name, a + b) == if Lookup(doc, name, a).Some? then Lookup(doc, name, a) else Lookup(doc, name, b)
  {
    var ab := a + b;
    match FirstHolder(doc, name, a)
    case Some(i) =>
      assert ab[i] == a[i];
      forall j | 0 <= j < i ensures !HasParam(doc, ab[j], name) {
        assert ab[j] == a[j];
      }
      FirstHolderIs(doc, name, ab, i);
    case None =>
      match FirstHolder(doc, name, b)
      case Some(i) =>
        assert ab[|a| + i] == b[i];
        forall j | 0 <= j < |a| + i ensures !HasParam(doc, ab[j], name) {
          if j < |a| { assert ab[j] == a[j]; } else { assert ab[j] == b[j - |a|]; }
        }
        FirstHolderIs(doc, name, ab, |a| + i);
      case None =>
        forall j | 0 <= j < |ab| ensures !HasParam(doc, ab[j], name) {
          if j < |a| { assert ab[j] == a[j]; } else { assert ab[j] == b[j - |a|]; }
        }
  }

  /** Sections listed after the first one holding the key are never
      consulted: whatever they contain, the getters see the same text. */
  lemma LookupIgnoresLaterSections(doc: Document, doc': Document, name: string, sections: seq<string>, i: nat)
    requires FirstHolder(doc, name, sections) == Some(i)
    requires forall j :: 0 <= j <= i ==> Section(doc', sections[j]) == Section(doc, sections[j])
    ensures Lookup(doc', name, sections) == Lookup(doc, name, sections)
  {
    forall j | 0 <= j <= i ensures HasParam(doc', sections[j], name) == HasParam(doc, sections[j], name) {
      assert KeyStrings(doc', sections[j]) == KeyStrings(doc, sections[j]);
    }
    FirstHolderIs(doc', name, sections, i);
  }

  // ---------------------------------------------------------------------------
  // The section list of the "undefined parameter" message.

  function Quote(s: string): string {
    "\"" + s + "\""
  }

  /** Each name in double quotes, in the given order, separated by ", ". */
  function QuoteJoin(names: seq<string>): (r: string)
    ensures r == "" <==> names == []
  {
    if |names| == 0 then ""
    else if |names| == 1 then Quote(names[0])
    else Quote(names[0]) + ", " + QuoteJoin(names[1..])
  }

  /** Appending one more name extends the list at its end. */
  lemma {:induction false} QuoteJoinSnoc(names: seq<string>, n: string)
    ensures QuoteJoin(names + [n]) == if names == [] then Quote(n) else QuoteJoin(names) + ", " + Quote(n)
  {
    if |names| > 1 {
      assert (names + [n])[1..] == names[1..] + [n];
      QuoteJoinSnoc(names[1..], n);
    } else if |names| == 1 {
      assert (names + [n])[1..] == [n];
    }
  }

  /** The first double quote in `t` at or after position `i` (`|t|` if none). */
  function NextQuote(t: string, i: nat): (j: nat)
    requires i <= |t|
    ensures i <= j <= |t|
    ensures j < |t| ==> t[j] == '"'
    ensures forall k :: i <= k < j ==> t[k] != '"'
    decreases |t| - i
  {
    if i == |t| || t[i] == '"' then i else NextQuote(t, i + 1)
  }

  /** Reads back the names from a non-empty quoted list. */
  function SplitItems(t: string): Option<seq<string>>
    decreases |t|
  {
    if |t| < 2 || t[0] != '"' then None
    else
      var j := NextQuote(t, 1);
      if j == |t| then None
      else
        var rest := t[j + 1..];
        if rest == "" then Some([t[1..j]])
        else if |rest| >= 2 && rest[0] == ',' && rest[1] == ' ' then
          match SplitItems(rest[2..])
          case None => None
          case Some(more) => Some([t[1..j]] + more)
        else None
  }

  /** Reads back the names from a quoted list; the inverse of QuoteJoin. */
  function SplitQuoted(t: string): Option<seq<string>> {
    if t == "" then Some([]) else SplitItems(t)
  }

  predicate NoQuotes(names: seq<string>) {
    forall n :: n in names ==> '"' !in n
  }

  lemma {:induction false} NextQuoteIs(t: string, i: nat, j: nat)
    requires i <= j < |t| && t[j] == '"'
    requires forall k :: i <= k < j ==> t[k] != '"'
    ensures NextQuote(t, i) == j
    decreases j - i
  {
    if i < j {
      NextQuoteIs(t, i + 1, j);
    }
  }

  lemma {:induction false} SplitItemsQuoteJoin(names: seq<string>)
    requires names != [] && NoQuotes(names)
    ensures SplitItems(QuoteJoin(names)) == Some(names)
    decreases |names|
  {
    var n := names[0];
    var tail := if |names| == 1 then "" else ", " + QuoteJoin(names[1..]);
    var t := QuoteJoin(names);
    assert t == "\"" + n + "\"" + tail;
    assert '"' !in n;
    forall k | 1 <= k < |n| + 1 ensures t[k] != '"' {
      assert t[k] == n[k - 1];
    }
    NextQuoteIs(t, 1, |n| + 1);
    assert t[1..|n| + 1] == n;
    assert t[|n| + 2..] == tail;
    assert |t| >= 2 && t[0] == '"';
    if |names| > 1 {
      assert tail[0] == ',' && tail[1] == ' ';
      assert tail[2..] == QuoteJoin(names[1..]);
      assert names == [n] + names[1..];
      assert NoQuotes(names[1..]) by {
        forall m | m in names[1..] ensures '"' !in m { assert m in names; }
      }
      SplitItemsQuoteJoin(names[1..]);
    } else {
      assert names == [n];
    }
  }

  /** No name read back from a quoted list contains a double quote. */
  lemma {:induction false} SplitItemsNoQuotes(t: string)
    requires SplitItems(t).Some?
    ensures NoQuotes(SplitItems(t).value)
    decreases |t|
  {
    var j := NextQuote(t, 1);
    var first := t[1..j];
    assert '"' !in first by {
      forall k | 0 <= k < |first| ensures first[k] != '"' {
        assert first[k] == t[k + 1];
      }
    }
    var rest := t[j + 1..];
    if rest == "" {
      assert SplitItems(t).value == [first];
    } else {
      SplitItemsNoQuotes(rest[2..]);
      var more := SplitItems(rest[2..]).value;
      assert SplitItems(t).value == [first] + more;
      forall m | m in [first] + more ensures '"' !in m {
        if m != first { assert m in more; }
      }
    }
  }

  /** The section list names every searched section, in order: it reads back
      as exactly those names if and only if no name contains a double quote. */
  lemma SplitQuoteJoin(names: seq<string>)
    ensures SplitQuoted(QuoteJoin(names)) == Some(names) <==> NoQuotes(names)
  {
    if NoQuotes(names) {
      if names != [] {
        SplitItemsQuoteJoin(names);
      }
    } else if SplitItems(QuoteJoin(names)).Some? {
      SplitItemsNoQuotes(QuoteJoin(names));
    }
  }

  /** With a double quote inside a section name the list is ambiguous: one
      name and two names give the same text. */
  lemma QuoteJoinAmbiguous()
    ensures QuoteJoin(["a\", \"b"]) == QuoteJoin(["a", "b"])
  {
  }

  /** Builds the critical message for parameter `name` missing from every
      section of `sectionName`. */
  method NotFoundError(name: string, sectionName: seq<string>) returns (msg: Critical)
    ensures msg == Undefined(name, QuoteJoin(sectionName))
    ensures sectionName == [] ==> msg.sectList == ""
    ensures SplitQuoted(msg.sectList) == Some(sectionName) <==> NoQuotes(sectionName)
  {
    var sectList := "";
    for i := 0 to |sectionName|
      invariant sectList == QuoteJoin(sectionName[..i])
    {
      if i > 0 {
        sectList := sectList + ", ";
      }
      sectList := sectList + "\"" + sectionName[i] + "\"";
      QuoteJoinSnoc(sectionName[..i], sectionName[i]);
      assert sectionName[..i + 1] == sectionName[..i] + [sectionName[i]];
    }
    assert sectionName[..|sectionName|] == sectionName;
    SplitQuoteJoin(sectionName);
    msg := Undefined(name, sectList);
  }

  // ---------------------------------------------------------------------------
  // The loaded document and its getters.

  class IniFile {
    /** The loaded document. */
    const doc: Document
    /** The library's conversion of a value's text to int, bool and float64. */
    const parseInt: string -> Option<int>
    const parseBool: string -> Option<bool>
    const parseFloat: string -> Option<Float64>

    /** A loaded document has unique keys in each section. */
    predicate Valid() {
      UniqueKeys(doc)
    }

    constructor (doc: Document, parseInt: string -> Option<int>, parseBool: string -> Option<bool>,
                 parseFloat: string -> Option<Float64>)
      requires UniqueKeys(doc)
      ensures Valid()
      ensures this.doc == doc
      ensures this.parseInt == parseInt && this.parseBool == parseBool && this.parseFloat == parseFloat
    {
      this.doc := doc;
      this.parseInt := parseInt;
      this.parseBool := parseBool;
      this.parseFloat := parseFloat;
    }

    /** Every key of section `name` with its raw, untrimmed text; an absent
        section gives the empty map. */
    method GetSectionValues(name: string) returns (ret: map<string, string>)
      requires Valid()
      ensures forall k :: k in ret <==> HasParam(doc, name, k)
      ensures forall k :: k in ret ==> ret[k] == RawValue(doc, name, k)
      ensures forall e :: e in Section(doc, name) ==> e.key in ret && ret[e.key] == e.raw
      ensures name !in doc ==> ret == map[]
    {
      ret := map[];
      var keys := KeyStrings(doc, name);
      for i := 0 to |keys|
        invariant forall k :: k in ret <==> k in keys[..i]
        invariant forall k :: k in ret ==> ret[k] == RawValue(doc, name, k)
      {
        var keyName := keys[i];
        ret := ret[keyName := RawValue(doc, name, keyName)];
      }
      assert keys[..|keys|] == keys;
      forall e | e in Section(doc, name) ensures e.key in ret && ret[e.key] == e.raw {
        var i :| 0 <= i < |Section(doc, name)| && Section(doc, name)[i] == e;
        assert keys[i] == e.key;
        RawValueOfEntry(doc, name, i);
      }
    }

    /** Whether section `section` holds a key spelled exactly `name`. */
    method IsParamExists(section: string, name: string) returns (ret: bool)
      requires Valid()
      ensures ret <==> exists i :: 0 <= i < |Section(doc, section)| && Section(doc, section)[i].key == name
      ensures ret == HasParam(doc, section, name)
    {
      ret := false;
      var keys := KeyStrings(doc, section);
      assert |keys| == |Section(doc, section)|;
      assert forall i :: 0 <= i < |keys| ==> keys[i] == Section(doc, section)[i].key;
      for i := 0 to |keys|
        invariant !ret
        invariant forall j :: 0 <= j < i ==> keys[j] != name
      {
        if keys[i] == name {
          ret := true;
          break;
        }
      }
    }

    /** The trimmed text of `name` from the first listed section holding it;
        else `defValue`, or, for a mandatory parameter, "" and one critical
        message naming the key and every listed section. */
    method GetString(name: string, defValue: string, mandatory: bool, sectionName: seq<string>)
      returns (ret: string, logs: seq<Critical>)
      requires Valid()
      ensures var found := Lookup(doc, name, sectionName);
        && (found.Some? ==> ret == TrimSpace(found.value) && logs == [])
        && (found.None? && !mandatory ==> ret == defValue && logs == [])
        && (found.None? && mandatory ==> ret == "" && logs == [Undefined(name, QuoteJoin(sectionName))])
    {
      ret := "";
      logs := [];
      var ok := false;
      for i := 0 to |sectionName|
        invariant !ok && ret == ""
        invariant forall j :: 0 <= j < i ==> !HasParam(doc, sectionName[j], name)
      {
        var has := IsParamExists(sectionName[i], name);
        if has {
          ret := TrimSpace(RawValue(doc, sectionName[i], name));
          ok := true;
          FirstHolderIs(doc, name, sectionName, i);
          break;
        }
      }
      if !ok {
        if mandatory {
          var msg := NotFoundError(name, sectionName);
          logs := logs + [msg];
        } else {
          ret := defValue;
        }
      }
    }

    /** The converted value of `name` from the first listed section holding
        it, or the sentinel when its text does not convert; else `defValue`,
        or, for a mandatory parameter, 0 and one critical message.  A "bad
        value" message follows exactly when the result equals the sentinel,
        wherever that value came from. */
    method GetInt(name: string, defValue: int, mandatory: bool, sectionName: seq<string>)
      returns (ret: int, logs: seq<Critical>)
      requires Valid()
      ensures var found := Lookup(doc, name, sectionName);
        && (found.Some? && parseInt(found.value).Some? ==> ret == parseInt(found.value).value)
        && (found.Some? && parseInt(found.value).None? ==> ret == BadInt)
        && (found.None? && !mandatory ==> ret == defValue)
        && (found.None? && mandatory ==> ret == 0)
        && logs == (if found.None? && mandatory then [Undefined(name, QuoteJoin(sectionName))] else [])
                   + (if ret == BadInt then [BadValue(name, IntScalar)] else [])
      ensures BadValue(name, IntScalar) in logs <==> ret == BadInt
      ensures |logs| <= 1
    {
      ret := 0;
      logs := [];
      var badValue := BadInt;
      var ok := false;
      for i := 0 to |sectionName|
        invariant !ok && ret == 0
        invariant forall j :: 0 <= j < i ==> !HasParam(doc, sectionName[j], name)
      {
        var has := IsParamExists(sectionName[i], name);
        if has {
          ret := parseInt(RawValue(doc, sectionName[i], name)).GetOr(badValue);
          ok := true;
          FirstHolderIs(doc, name, sectionName, i);
          break;
        }
      }
      if !ok {
        if mandatory {
          var msg := NotFoundError(name, sectionName);
          logs := logs + [msg];
        } else {
          ret := defValue;
        }
      }
      if ret == badValue {
        logs := logs + [BadValue(name, IntScalar)];
      }
    }

    /** The converted value of `name` from the first listed section holding
        it, or `defValue` when its text does not convert (silently); else
        `defValue`, or, for a mandatory parameter, false and one critical
        message.  No "bad value" message is ever produced. */
    method GetBool(name: string, defValue: bool, mandatory: bool, sectionName: seq<string>)
      returns (ret: bool, logs: seq<Critical>)
      requires Valid()
      ensures var found := Lookup(doc, name, sectionName);
        && (found.Some? && parseBool(found.value).Some? ==> ret == parseBool(found.value).value)
        && (found.Some? && parseBool(found.value).None? ==> ret == defValue)
        && (found.None? && !mandatory ==> ret == defValue)
        && (found.None? && mandatory ==> ret == false)
        && logs == (if found.None? && mandatory then [Undefined(name, QuoteJoin(sectionName))] else [])
      ensures forall m :: m in logs ==> !m.BadValue?
    {
      ret := false;
      logs := [];
      var ok := false;
      for i := 0 to |sectionName|
        invariant !ok && !ret
        invariant forall j :: 0 <= j < i ==> !HasParam(doc, sectionName[j], name)
      {
        var has := IsParamExists(sectionName[i], name);
        if has {
          ret := parseBool(RawValue(doc, sectionName[i], name)).GetOr(defValue);
          ok := true;
          FirstHolderIs(doc, name, sectionName, i);
          break;
        }
      }
      if !ok {
        if mandatory {
          var msg := NotFoundError(name, sectionName);
          logs := logs + [msg];
        } else {
          ret := defValue;
        }
      }
    }

    /** GetInt's rules for float64: the sentinel is -999999999999 and a "bad
        value" message follows exactly when the result compares equal to it. */
    method GetFloat(name: string, defValue: Float64, mandatory: bool, sectionName: seq<string>)
      returns (ret: Float64, logs: seq<Critical>)
      requires Valid()
      ensures var found := Lookup(doc, name, sectionName);
        && (found.Some? && parseFloat(found.value).Some? ==> ret == parseFloat(found.value).value)
        && (found.Some? && parseFloat(found.value).None? ==> ret == BadFloat)
        && (found.None? && !mandatory ==> ret == defValue)
        && (found.None? && mandatory ==> ret == FloatZero)
        && logs == (if found.None? && mandatory then [Undefined(name, QuoteJoin(sectionName))] else [])
                   + (if ret == BadFloat then [BadValue(name, FloatScalar)] else [])
      ensures BadValue(name, FloatScalar) in logs <==> ret == BadFloat
      ensures |logs| <= 1
    {
      ret := FloatZero;
      logs := [];
      var badValue := BadFloat;
      var ok := false;
      for i := 0 to |sectionName|
        invariant !ok && ret == FloatZero
        invariant forall j :: 0 <= j < i ==> !HasParam(doc, sectionName[j], name)
      {
        var has := IsParamExists(sectionName[i], name);
        if has {
          ret := parseFloat(RawValue(doc, sectionName[i], name)).GetOr(badValue);
          ok := true;
          FirstHolderIs(doc, name, sectionName, i);
          break;
        }
      }
      if !ok {
        if mandatory {
          var msg := NotFoundError(name, sectionName);
          logs := logs + [msg];
        } else {
          ret := defValue;
        }
      }
      if FloatEq(ret, badValue) {
        logs := logs + [BadValue(name, FloatScalar)];
      }
    }
  }
}
