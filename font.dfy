/**
  The bitmap-font document the SharpFNT codec hands to the program, reduced to
  what the inspect command looks at, and the reflective record dump
  (Program.InspectObject) as a function from a record to console lines.
 */
module Font {
  import opened Wrappers
  import Strings

  /** SharpFNT's FormatHint: the serialisation a converted font is saved in. */
  datatype Format = Binary | Text | Xml

  /** One public property of a record as reflection sees it: its name and its ToString() value. */
  datatype Property = Property(name: string, value: string)

  /** A record (InfoBlock, CommonBlock, Character, KerningPair) is its list of public properties. */
  type Record = seq<Property>

  /** A character of a C# identifier, which is what a property name is made of. */
  predicate IsNameChar(c: char) {
    ('a' <= c <= 'z') || ('A' <= c <= 'Z') || ('0' <= c <= '9') || c == '_'
  }

  predicate IsIdentifier(name: string) {
    |name| > 0 && forall k :: 0 <= k < |name| ==> IsNameChar(name[k])
  }

  /** The line "{name}: {value}" that InspectObject and the block loops write. */
  function FieldLine(name: string, value: string): (line: string) {
    name + ": " + value
  }

  /** InspectObject: one field line per property, in the order reflection lists them. */
  function Render(r: Record): (lines: seq<string>)
    ensures |lines| == |r|
    ensures forall k :: 0 <= k < |r| ==> lines[k] == FieldLine(r[k].name, r[k].value)
  {
    seq(|r|, k requires 0 <= k < |r| => FieldLine(r[k].name, r[k].value))
  }

  /** The key of a kerning pair: the first and second character codes, in order. */
  datatype KerningPair = KerningPair(first: int, second: int)

  /** The public properties of SharpFNT's KerningPair, as InspectObject dumps them. */
  function PairRecord(p: KerningPair): (record: Record) {
    [Property("First", Strings.IntToString(p.first)), Property("Second", Strings.IntToString(p.second))]
  }

  /** Entries of the three dictionaries, listed in their enumeration order. */
  datatype Page = Page(id: int, file: string)
  datatype CharacterEntry = CharacterEntry(id: int, character: Record)
  datatype KerningEntry = KerningEntry(pair: KerningPair, amount: int)

  /** A loaded font. Each block is a property that may hold null. */
  datatype Document = Document(
    info: Option<Record>,
    common: Option<Record>,
    pages: Option<seq<Page>>,
    characters: Option<seq<CharacterEntry>>,
    kerningPairs: Option<seq<KerningEntry>>)

  predicate ValidRecord(r: Record) {
    forall k :: 0 <= k < |r| ==> IsIdentifier(r[k].name)
  }

  /** Dictionary keys are unique and every record is a real object's property list. */
  predicate WellFormed(d: Document) {
    (d.info.Some? ==> ValidRecord(d.info.value)) &&
    (d.common.Some? ==> ValidRecord(d.common.value)) &&
    (d.pages.Some? ==>
      forall i, j :: 0 <= i < j < |d.pages.value| ==> d.pages.value[i].id != d.pages.value[j].id) &&
    (d.characters.Some? ==>
      (forall i, j :: 0 <= i < j < |d.characters.value| ==>
        d.characters.value[i].id != d.characters.value[j].id) &&
      (forall i :: 0 <= i < |d.characters.value| ==> ValidRecord(d.characters.value[i].character))) &&
    (d.kerningPairs.Some? ==>
      forall i, j :: 0 <= i < j < |d.kerningPairs.value| ==>
        d.kerningPairs.value[i].pair != d.kerningPairs.value[j].pair)
  }

  /** No block is null. */
  predicate Complete(d: Document) {
    d.info.Some? && d.common.Some? && d.pages.Some? && d.characters.Some? && d.kerningPairs.Some?
  }

  /** A 16-bit UTF-16 code unit, the range of C#'s char. */
  newtype Utf16 = x: int | 0 <= x < 0x1_0000

  /** The unchecked cast (char)id: the low 16 bits of the two's-complement id. */
  function CharOf(id: int): (u: Utf16) {
    (id % 0x1_0000) as Utf16
  }

  /** char.IsControl: the Unicode general category Cc. */
  predicate IsControl(c: Utf16) {
    c <= 0x1F || (0x7F <= c <= 0x9F)
  }

  /** char.IsWhiteSpace: the space, line and paragraph separators, tab through carriage return, U+0085 and U+00A0. */
  predicate IsWhiteSpace(c: Utf16) {
    c == 0x20 || (0x09 <= c <= 0x0D) || c == 0x85 || c == 0xA0 || c == 0x1680 ||
    (0x2000 <= c <= 0x200A) || c == 0x2028 || c == 0x2029 || c == 0x202F || c == 0x205F || c == 0x3000
  }

  /** The derived display decision: the glyph is printed only for a visible character. */
  predicate ShowsGlyph(c: Utf16) {
    !IsControl(c) && !IsWhiteSpace(c)
  }

  /** The glyph written for c; a lone surrogate cannot be a Dafny char and is written as U+FFFD. */
  function Glyph(c: Utf16): (g: char)
    ensures !(0xD800 <= c < 0xE000) ==> g as int == c as int
  {
    if 0xD800 <= c < 0xE000 then '\U{FFFD}' else (c as int) as char
  }
}
