/** The view of an already-loaded INI document that the lookup layer uses:
    for each section name, its keys in file order with their raw string
    values.  A section the document does not have reads as an empty one. */
module IniDoc {

  datatype Entry = Entry(key: string, raw: string)

  type Document = map<string, seq<Entry>>

  /** The entries of section `name`; none when the document lacks it. */
  function Section(doc: Document, name: string): seq<Entry> {
    if name in doc then doc[name] else []
  }

  /** The key names of section `name`, in file order. */
  function KeyStrings(doc: Document, name: string): seq<string> {
    var entries := Section(doc, name);
    seq(|entries|, i requires 0 <= i < |entries| => entries[i].key)
  }

  /** Section `section` holds a key spelled exactly `name`. */
  predicate HasParam(doc: Document, section: string, name: string) {
    name in KeyStrings(doc, section)
  }

  /** The raw text stored under the first entry keyed `name`, or "" when there
      is none (the value of a key the library has to create on the spot). */
  function ValueIn(entries: seq<Entry>, name: string): string {
    if |entries| == 0 then ""
    else if entries[0].key == name then entries[0].raw
    else ValueIn(entries[1..], name)
  }

  /** The untrimmed text of key `name` in section `section`. */
  function RawValue(doc: Document, section: string, name: string): string {
    ValueIn(Section(doc, section), name)
  }

  /** Keys are unique within each section of a loaded document. */
  predicate UniqueKeys(doc: Document) {
    forall s, i, j :: s in doc && 0 <= i < j < |doc[s]| ==> doc[s][i].key != doc[s][j].key
  }

  /** In a document whose sections have unique keys, the raw value of a key
      is the value stored in that key's own entry. */
  lemma {:induction false} RawValueOfEntry(doc: Document, section: string, i: nat)
    requires UniqueKeys(doc)
    requires i < |Section(doc, section)|
    ensures RawValue(doc, section, Section(doc, section)[i].key) == Section(doc, section)[i].raw
  {
    var entries := Section(doc, section);
    assert forall a, b :: 0 <= a < b < |entries| ==> entries[a].key != entries[b].key;
    ValueInUnique(entries, i);
  }

  lemma {:induction false} ValueInUnique(entries: seq<Entry>, i: nat)
    requires i < |entries|
    requires forall a, b :: 0 <= a < b < |entries| ==> entries[a].key != entries[b].key
    ensures ValueIn(entries, entries[i].key) == entries[i].raw
  {
    if i > 0 {
      assert entries[0].key != entries[i].key;
      assert entries[1..][i - 1] == entries[i];
      ValueInUnique(entries[1..], i - 1);
    }
  }

  /** A float64 as far as the getters look at it: only the values a
      conversion hands back and Go's `==` between them matter. */
  datatype Float64 = Finite(value: real) | PosInf | NegInf | NaN

  /** Go's `==` on float64: NaN equals nothing, not even itself. */
  predicate FloatEq(a: Float64, b: Float64) {
    || (a.Finite? && b.Finite? && a.value == b.value)
    || (a.PosInf? && b.PosInf?)
    || (a.NegInf? && b.NegInf?)
  }
}
