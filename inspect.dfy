/**
  The inspect command (Program.Inspect): after the source is found and loaded,
  five guarded sections, Info, Common, Pages, Characters and Kerning Pairs, each
  written iff --all or the block's own flag is given.
 */
module Inspector {
  import opened Wrappers
  import opened Font
  import opened Environment
  import opened Sequences
  import Strings

  /** InspectArgs, without the console and the cancellation token. */
  datatype InspectArgs = InspectArgs(
    source: string,
    all: bool,
    info: bool,
    common: bool,
    pages: bool,
    characters: bool,
    kerningPairs: bool)

  datatype Block = InfoBlock | CommonBlock | PagesBlock | CharactersBlock | KerningPairsBlock

  /** The block's place in the report. */
  function Rank(b: Block): (rank: nat) {
    match b
    case InfoBlock => 0
    case CommonBlock => 1
    case PagesBlock => 2
    case CharactersBlock => 3
    case KerningPairsBlock => 4
  }

  predicate Selected(args: InspectArgs, b: Block) {
    args.all ||
    match b
    case InfoBlock => args.info
    case CommonBlock => args.common
    case PagesBlock => args.pages
    case CharactersBlock => args.characters
    case KerningPairsBlock => args.kerningPairs
  }

  function Title(b: Block): (title: string) {
    match b
    case InfoBlock => "Info"
    case CommonBlock => "Common"
    case PagesBlock => "Pages"
    case CharactersBlock => "Characters"
    case KerningPairsBlock => "Kerning Pairs"
  }

  function Header(b: Block): (header: string) {
    Title(b) + " Block:"
  }

  function NotFound(source: string): (msg: string) {
    "Source file \"" + source + "\" was not found. Aborting.\n"
  }

  function IdLine(id: int): (line: string) {
    FieldLine("ID", Strings.IntToString(id))
  }

  /** The lines written for one page. */
  function PageLines(p: Page): (lines: seq<string>) {
    [IdLine(p.id), FieldLine("File", p.file), ""]
  }

  /** The lines written for one character: the glyph line only for a visible character. */
  function CharacterLines(c: CharacterEntry): (lines: seq<string>) {
    var u := CharOf(c.id);
    [IdLine(c.id)] + (if ShowsGlyph(u) then [FieldLine("Character", [Glyph(u)])] else []) +
    Render(c.character) + [""]
  }

  /** The lines written for one kerning pair. */
  function KerningLines(k: KerningEntry): (lines: seq<string>) {
    Render(PairRecord(k.pair)) + [FieldLine("Amount", Strings.IntToString(k.amount)), ""]
  }

  /** The lines of each entry, one entry after another in enumeration order. */
  function Flatten<T>(xs: seq<T>, f: T -> seq<string>): (lines: seq<string>) {
    if xs == [] then [] else Flatten(xs[..|xs| - 1], f) + f(xs[|xs| - 1])
  }

  /**
    What a selected block writes after its header, or None when the block is null
    in the document, so that dumping it throws a NullReferenceException.
   */
  function Body(d: Document, b: Block): (body: Option<seq<string>>) {
    match b
    case InfoBlock => if d.info.None? then None else Some(Render(d.info.value) + [""])
    case CommonBlock => if d.common.None? then None else Some(Render(d.common.value) + [""])
    case PagesBlock => if d.pages.None? then None else Some(Flatten(d.pages.value, PageLines))
    case CharactersBlock => if d.characters.None? then None else Some(Flatten(d.characters.value, CharacterLines))
    case KerningPairsBlock => if d.kerningPairs.None? then None else Some(Flatten(d.kerningPairs.value, KerningLines) + [""])
  }

  /** Lines written so far, and whether an exception escaped. */
  datatype Report = Report(lines: seq<string>, threw: bool)

  function Section(args: InspectArgs, d: Document, b: Block): (report: Report) {
    if !Selected(args, b) then Report([], false)
    else match Body(d, b)
      case None => Report([Header(b)], true)
      case Some(body) => Report([Header(b)] + body, false)
  }

  /** r followed by s, unless r threw. */
  function Then(r: Report, s: Report): (report: Report) {
    if r.threw then r else Report(r.lines + s.lines, s.threw)
  }

  /** The five sections in order. */
  function Sections(args: InspectArgs, d: Document): (report: Report) {
    Then(Then(Then(Then(Section(args, d, InfoBlock),
      Section(args, d, CommonBlock)),
      Section(args, d, PagesBlock)),
      Section(args, d, CharactersBlock)),
      Section(args, d, KerningPairsBlock))
  }

  /** How Inspect ends: it returns an exit code, or an exception escapes it. */
  datatype Status = Exited(code: int) | Threw

  datatype Outcome = Outcome(status: Status, lines: seq<string>)

  /**
    What Inspect does. loaded is what BitmapFont.FromFile gives for the source,
    None when it throws.
   */
  function InspectSpec(args: InspectArgs, files: set<string>, loaded: Option<Document>): (outcome: Outcome) {
    if args.source !in files then Outcome(Exited(1), [NotFound(args.source)])
    else match loaded
      case None => Outcome(Threw, [])
      case Some(d) =>
        var r := Sections(args, d);
        Outcome(if r.threw then Threw else Exited(0), r.lines)
  }

  /** An exception ends the report: nothing after it is written. */
  lemma ThrowStops(r: Report, s: Report)
    requires r.threw
    ensures Then(r, s) == r
  {
  }

  lemma FlattenStep<T>(xs: seq<T>, f: T -> seq<string>, k: nat)
    requires k < |xs|
    ensures Flatten(xs[..k + 1], f) == Flatten(xs[..k], f) + f(xs[k])
  {
    assert xs[..k + 1][..k] == xs[..k];
  }

  /** Program.InspectObject: one line per property. */
  method InspectObject(r: Record, console: Console)
    modifies console
    ensures console.lines == old(console.lines) + Render(r)
  {
    for k := 0 to |r|
      invariant console.lines == old(console.lines) + Render(r[..k])
    {
      console.WriteLine(FieldLine(r[k].name, r[k].value));
      assert Render(r[..k + 1]) == Render(r[..k]) + [FieldLine(r[k].name, r[k].value)];
    }
    assert r[..|r|] == r;
  }

  /** The body of the foreach over Pages. */
  method InspectPage(p: Page, console: Console)
    modifies console
    ensures console.lines == old(console.lines) + PageLines(p)
  {
    console.WriteLine(IdLine(p.id));
    console.WriteLine(FieldLine("File", p.file));
    console.WriteLine("");
  }

  method InspectPages(pages: seq<Page>, console: Console)
    modifies console
    ensures console.lines == old(console.lines) + Flatten(pages, PageLines)
  {
    for k := 0 to |pages|
      invariant console.lines == old(console.lines) + Flatten(pages[..k], PageLines)
    {
      InspectPage(pages[k], console);
      FlattenStep(pages, PageLines, k);
      Append(old(console.lines), Flatten(pages[..k], PageLines), PageLines(pages[k]));
    }
    assert pages[..|pages|] == pages;
  }

  /** The body of the foreach over Characters, with the glyph decision. */
  method InspectCharacter(c: CharacterEntry, console: Console)
    modifies console
    ensures console.lines == old(console.lines) + CharacterLines(c)
  {
    var characterId := CharOf(c.id);
    ghost var glyph := if ShowsGlyph(characterId) then [FieldLine("Character", [Glyph(characterId)])] else [];
    console.WriteLine(IdLine(c.id));
    if !IsControl(characterId) && !IsWhiteSpace(characterId) {
      console.WriteLine(FieldLine("Character", [Glyph(characterId)]));
    }
    assert console.lines == old(console.lines) + ([IdLine(c.id)] + glyph);
    InspectObject(c.character, console);
    console.WriteLine("");
    Append(old(console.lines), [IdLine(c.id)] + glyph, Render(c.character));
    Append(old(console.lines), [IdLine(c.id)] + glyph + Render(c.character), [""]);
  }

  method InspectCharacters(characters: seq<CharacterEntry>, console: Console)
    modifies console
    ensures console.lines == old(console.lines) + Flatten(characters, CharacterLines)
  {
    for k := 0 to |characters|
      invariant console.lines == old(console.lines) + Flatten(characters[..k], CharacterLines)
    {
      InspectCharacter(characters[k], console);
      FlattenStep(characters, CharacterLines, k);
      Append(old(console.lines), Flatten(characters[..k], CharacterLines), CharacterLines(characters[k]));
    }
    assert characters[..|characters|] == characters;
  }

  /** The body of the foreach over KerningPairs. */
  method InspectKerningPair(k: KerningEntry, console: Console)
    modifies console
    ensures console.lines == old(console.lines) + KerningLines(k)
  {
    InspectObject(PairRecord(k.pair), console);
    console.WriteLine(FieldLine("Amount", Strings.IntToString(k.amount)));
    console.WriteLine("");
  }

  method InspectKerningPairs(kerningPairs: seq<KerningEntry>, console: Console)
    modifies console
    ensures console.lines == old(console.lines) + Flatten(kerningPairs, KerningLines)
  {
    for k := 0 to |kerningPairs|
      invariant console.lines == old(console.lines) + Flatten(kerningPairs[..k], KerningLines)
    {
      InspectKerningPair(kerningPairs[k], console);
      FlattenStep(kerningPairs, KerningLines, k);
      Append(old(console.lines), Flatten(kerningPairs[..k], KerningLines), KerningLines(kerningPairs[k]));
    }
    assert kerningPairs[..|kerningPairs|] == kerningPairs;
  }

  /**
    One of the five guarded sections: nothing unless the block is selected, else
    its header, then its dump, which throws when the block is null.
   */
  method InspectBlock(args: InspectArgs, font: Document, b: Block, console: Console) returns (threw: bool)
    modifies console
    ensures var s := Section(args, font, b);
      threw == s.threw && console.lines == old(console.lines) + s.lines
  {
    if !Selected(args, b) {
      return false;
    }
    console.WriteLine(Header(b));
    match b {
    case InfoBlock =>
      if font.info.None? {
        return true;
      }
      InspectObject(font.info.value, console);
      console.WriteLine("");
      Append([Header(b)], Render(font.info.value), [""]);
      Append(old(console.lines) + [Header(b)], Render(font.info.value), [""]);
      Append(old(console.lines), [Header(b)], Render(font.info.value) + [""]);
    case CommonBlock =>
      if font.common.None? {
        return true;
      }
      InspectObject(font.common.value, console);
      console.WriteLine("");
      Append([Header(b)], Render(font.common.value), [""]);
      Append(old(console.lines) + [Header(b)], Render(font.common.value), [""]);
      Append(old(console.lines), [Header(b)], Render(font.common.value) + [""]);
    case PagesBlock =>
      if font.pages.None? {
        return true;
      }
      InspectPages(font.pages.value, console);
      Append(old(console.lines), [Header(b)], Flatten(font.pages.value, PageLines));
    case CharactersBlock =>
      if font.characters.None? {
        return true;
      }
      InspectCharacters(font.characters.value, console);
      Append(old(console.lines), [Header(b)], Flatten(font.characters.value, CharacterLines));
    case KerningPairsBlock =>
      if font.kerningPairs.None? {
        return true;
      }
      InspectKerningPairs(font.kerningPairs.value, console);
      console.WriteLine("");
      Append([Header(b)], Flatten(font.kerningPairs.value, KerningLines), [""]);
      Append(old(console.lines) + [Header(b)], Flatten(font.kerningPairs.value, KerningLines), [""]);
      Append(old(console.lines), [Header(b)], Flatten(font.kerningPairs.value, KerningLines) + [""]);
    }
    return false;
  }

  /**
    Program.Inspect. Each foreach over a dictionary is one of the Inspect* loops
    above; a null block makes the section throw right after its header.
   */
  method Inspect(args: InspectArgs, fs: FileSystem, loaded: Option<Document>, console: Console)
    returns (status: Status)
    modifies console
    ensures var r := InspectSpec(args, fs.paths, loaded);
      status == r.status && console.lines == old(console.lines) + r.lines
  {
    if !fs.Exists(args.source) {
      console.WriteLine(NotFound(args.source));
      return Exited(1);
    }
    if loaded.None? {
      return Threw;
    }
    var font := loaded.value;
    ghost var s1, s2, s3, s4, s5 := Section(args, font, InfoBlock), Section(args, font, CommonBlock),
      Section(args, font, PagesBlock), Section(args, font, CharactersBlock), Section(args, font, KerningPairsBlock);
    assert Sections(args, font) == Then(Then(Then(Then(s1, s2), s3), s4), s5);

    var threw := InspectBlock(args, font, InfoBlock, console);
    ghost var done := s1;
    if threw {
      ThrowStops(done, s2);
      ThrowStops(done, s3);
      ThrowStops(done, s4);
      ThrowStops(done, s5);
      return Threw;
    }
    threw := InspectBlock(args, font, CommonBlock, console);
    Append(old(console.lines), done.lines, s2.lines);
    done := Then(done, s2);
    if threw {
      ThrowStops(done, s3);
      ThrowStops(done, s4);
      ThrowStops(done, s5);
      return Threw;
    }
    threw := InspectBlock(args, font, PagesBlock, console);
    Append(old(console.lines), done.lines, s3.lines);
    done := Then(done, s3);
    if threw {
      ThrowStops(done, s4);
      ThrowStops(done, s5);
      return Threw;
    }
    threw := InspectBlock(args, font, CharactersBlock, console);
    Append(old(console.lines), done.lines, s4.lines);
    done := Then(done, s4);
    if threw {
      ThrowStops(done, s5);
      return Threw;
    }
    threw := InspectBlock(args, font, KerningPairsBlock, console);
    Append(old(console.lines), done.lines, s5.lines);
    done := Then(done, s5);
    if threw {
      return Threw;
    }
    return Exited(0);
  }

  // Properties of the report.

  /** A missing source gives only the "not found" line and exit code 1, whatever load would give. */
  lemma InspectMissingSource(args: InspectArgs, files: set<string>, loaded: Option<Document>)
    requires args.source !in files
    ensures var r := InspectSpec(args, files, loaded);
      r.status == Exited(1) && r.lines == [NotFound(args.source)] &&
      forall b :: Header(b) !in r.lines
  {
    forall b ensures Header(b) != NotFound(args.source) {
      assert Header(b)[0] != NotFound(args.source)[0];
    }
  }

  /** Whether a section's dump throws: it is selected and its block is null. */
  lemma SectionThrows(args: InspectArgs, d: Document, b: Block)
    ensures Section(args, d, b).threw <==> Selected(args, b) && Body(d, b).None?
  {
  }

  /**
    With the source present, Inspect never returns 1; it returns 0 exactly when
    every selected block is non-null, and an exception escapes otherwise.
   */
  lemma {:induction false} InspectExitCode(args: InspectArgs, files: set<string>, loaded: Option<Document>)
    requires args.source in files
    ensures var r := InspectSpec(args, files, loaded);
      r.status != Exited(1) &&
      (r.status == Exited(0) <==>
        loaded.Some? && forall b :: Selected(args, b) ==> Body(loaded.value, b).Some?) &&
      (r.status != Exited(0) ==> r.status == Threw)
  {
    if loaded.Some? {
      var d := loaded.value;
      SectionThrows(args, d, InfoBlock);
      SectionThrows(args, d, CommonBlock);
      SectionThrows(args, d, PagesBlock);
      SectionThrows(args, d, CharactersBlock);
      SectionThrows(args, d, KerningPairsBlock);
      var r := Sections(args, d);
      if !r.threw {
        forall b | Selected(args, b) ensures Body(d, b).Some? {
          match b
          case InfoBlock =>
          case CommonBlock =>
          case PagesBlock =>
          case CharactersBlock =>
          case KerningPairsBlock =>
        }
      }
    }
  }

  /** A loaded font with no null block always gives exit code 0. */
  lemma InspectCompleteSucceeds(args: InspectArgs, files: set<string>, d: Document)
    requires args.source in files && Complete(d)
    ensures InspectSpec(args, files, Some(d)).status == Exited(0)
  {
    InspectExitCode(args, files, Some(d));
  }

  /** The five header lines. */
  predicate IsHeader(line: string) {
    line == Header(InfoBlock) || line == Header(CommonBlock) || line == Header(PagesBlock) ||
    line == Header(CharactersBlock) || line == Header(KerningPairsBlock)
  }

  /** Lines none of which is a header. */
  predicate NoHeader(lines: seq<string>) {
    forall k :: 0 <= k < |lines| ==> !IsHeader(lines[k])
  }

  /** The length of the title's first word: where its first space is. */
  function FirstWord(b: Block): (w: nat) {
    match b
    case InfoBlock => 4
    case CommonBlock => 6
    case PagesBlock => 5
    case CharactersBlock => 10
    case KerningPairsBlock => 7
  }

  /**
    A field line is not the header of b: the name's first non-name character is
    the colon, the title's is a space.
   */
  lemma FieldLineNotBlockHeader(name: string, value: string, b: Block)
    requires IsIdentifier(name)
    ensures FieldLine(name, value) != Header(b)
  {
    var line, header, w := FieldLine(name, value), Header(b), FirstWord(b);
    assert header[w] == ' ';
    assert forall k :: 0 <= k < w ==> IsNameChar(header[k]);
    if |name| < w {
      assert line[|name|] == ':';
      assert line[|name|] != header[|name|];
    } else {
      assert line[w] != ' ' by {
        if w < |name| {
          assert line[w] == name[w];
        } else {
          assert line[w] == ':';
        }
      }
    }
  }

  /** A field line never looks like a header. */
  lemma FieldLineNotHeader(name: string, value: string)
    requires IsIdentifier(name)
    ensures !IsHeader(FieldLine(name, value))
  {
    FieldLineNotBlockHeader(name, value, InfoBlock);
    FieldLineNotBlockHeader(name, value, CommonBlock);
    FieldLineNotBlockHeader(name, value, PagesBlock);
    FieldLineNotBlockHeader(name, value, CharactersBlock);
    FieldLineNotBlockHeader(name, value, KerningPairsBlock);
  }

  lemma RenderNoHeader(r: Record)
    requires ValidRecord(r)
    ensures NoHeader(Render(r))
  {
    forall k | 0 <= k < |r| ensures !IsHeader(Render(r)[k]) {
      FieldLineNotHeader(r[k].name, r[k].value);
    }
  }

  lemma NoHeaderAppend(a: seq<string>, b: seq<string>)
    requires NoHeader(a) && NoHeader(b)
    ensures NoHeader(a + b)
  {
    forall k | 0 <= k < |a + b| ensures !IsHeader((a + b)[k]) {
      if k >= |a| {
        assert (a + b)[k] == b[k - |a|];
      }
    }
  }

  lemma PageLinesNoHeader(p: Page)
    ensures NoHeader(PageLines(p))
  {
    FieldLineNotHeader("ID", Strings.IntToString(p.id));
    FieldLineNotHeader("File", p.file);
    assert !IsHeader("");
  }

  lemma {:induction false} FlattenNoHeader<T>(xs: seq<T>, f: T -> seq<string>)
    requires forall i :: 0 <= i < |xs| ==> NoHeader(f(xs[i]))
    ensures NoHeader(Flatten(xs, f))
  {
    if xs != [] {
      var init := xs[..|xs| - 1];
      assert forall i :: 0 <= i < |init| ==> init[i] == xs[i];
      FlattenNoHeader(init, f);
      NoHeaderAppend(Flatten(init, f), f(xs[|xs| - 1]));
    }
  }

  lemma CharacterLinesNoHeader(c: CharacterEntry)
    requires ValidRecord(c.character)
    ensures NoHeader(CharacterLines(c))
  {
    var u := CharOf(c.id);
    var glyph := if ShowsGlyph(u) then [FieldLine("Character", [Glyph(u)])] else [];
    FieldLineNotHeader("ID", Strings.IntToString(c.id));
    FieldLineNotHeader("Character", [Glyph(u)]);
    assert NoHeader([IdLine(c.id)]);
    assert NoHeader(glyph);
    assert !IsHeader("");
    assert NoHeader([""]);
    RenderNoHeader(c.character);
    NoHeaderAppend([IdLine(c.id)], glyph);
    NoHeaderAppend([IdLine(c.id)] + glyph, Render(c.character));
    NoHeaderAppend([IdLine(c.id)] + glyph + Render(c.character), [""]);
  }

  lemma KerningLinesNoHeader(e: KerningEntry)
    ensures NoHeader(KerningLines(e))
  {
    assert ValidRecord(PairRecord(e.pair));
    RenderNoHeader(PairRecord(e.pair));
    FieldLineNotHeader("Amount", Strings.IntToString(e.amount));
    assert !IsHeader("");
    NoHeaderAppend(Render(PairRecord(e.pair)), [FieldLine("Amount", Strings.IntToString(e.amount)), ""]);
  }

  /** No line of a block's dump is a header. */
  lemma BodyNoHeader(d: Document, b: Block)
    requires WellFormed(d) && Body(d, b).Some?
    ensures NoHeader(Body(d, b).value)
  {
    assert !IsHeader("");
    match b
    case InfoBlock =>
      RenderNoHeader(d.info.value);
      NoHeaderAppend(Render(d.info.value), [""]);
    case CommonBlock =>
      RenderNoHeader(d.common.value);
      NoHeaderAppend(Render(d.common.value), [""]);
    case PagesBlock =>
      forall i | 0 <= i < |d.pages.value| ensures NoHeader(PageLines(d.pages.value[i])) {
        PageLinesNoHeader(d.pages.value[i]);
      }
      FlattenNoHeader(d.pages.value, PageLines);
    case CharactersBlock =>
      forall i | 0 <= i < |d.characters.value| ensures NoHeader(CharacterLines(d.characters.value[i])) {
        CharacterLinesNoHeader(d.characters.value[i]);
      }
      FlattenNoHeader(d.characters.value, CharacterLines);
    case KerningPairsBlock =>
      forall i | 0 <= i < |d.kerningPairs.value| ensures NoHeader(KerningLines(d.kerningPairs.value[i])) {
        KerningLinesNoHeader(d.kerningPairs.value[i]);
      }
      FlattenNoHeader(d.kerningPairs.value, KerningLines);
      NoHeaderAppend(Flatten(d.kerningPairs.value, KerningLines), [""]);
  }

  /** Distinct blocks have distinct headers. */
  lemma HeaderInjective(b: Block, c: Block)
    requires b != c
    ensures Header(b) != Header(c)
  {
    var w := FirstWord(b);
    assert Header(b)[w] == ' ';
    if w < |Header(c)| {
      assert Header(c)[w] != ' ' || Header(c)[..w] != Header(b)[..w];
    }
  }

  /** Every selected block is present, so no section's dump throws. */
  predicate SelectedPresent(args: InspectArgs, d: Document) {
    forall b :: Selected(args, b) ==> Body(d, b).Some?
  }

  /** A section holds its own header once, if selected, and no other header. */
  lemma SectionCount(args: InspectArgs, d: Document, b: Block, c: Block)
    requires WellFormed(d)
    ensures multiset(Section(args, d, c).lines)[Header(b)] == if Selected(args, c) && b == c then 1 else 0
  {
    if Selected(args, c) {
      assert IsHeader(Header(b)) by {
        match b
        case InfoBlock =>
        case CommonBlock =>
        case PagesBlock =>
        case CharactersBlock =>
        case KerningPairsBlock =>
      }
      if b != c {
        HeaderInjective(b, c);
      }
      if Body(d, c).Some? {
        BodyNoHeader(d, c);
        var body := Body(d, c).value;
        assert Header(b) !in body;
        assert Section(args, d, c).lines == [Header(c)] + body;
      } else {
        assert Section(args, d, c).lines == [Header(c)];
      }
    }
  }

  function BlockAt(n: nat): (b: Block)
    requires n < 5
    ensures Rank(b) == n
  {
    if n == 0 then InfoBlock
    else if n == 1 then CommonBlock
    else if n == 2 then PagesBlock
    else if n == 3 then CharactersBlock
    else KerningPairsBlock
  }

  /** The lines of the first n sections, in report order. */
  function Prefix(args: InspectArgs, d: Document, n: nat): (lines: seq<string>)
    requires n <= 5
  {
    if n == 0 then [] else Prefix(args, d, n - 1) + Section(args, d, BlockAt(n - 1)).lines
  }

  /** The report after the first n sections. */
  function Upto(args: InspectArgs, d: Document, n: nat): (report: Report)
    requires n <= 5
  {
    if n == 0 then Report([], false) else Then(Upto(args, d, n - 1), Section(args, d, BlockAt(n - 1)))
  }

  lemma SectionsUpto(args: InspectArgs, d: Document)
    ensures Sections(args, d) == Upto(args, d, 5)
  {
    var s1, s2, s3, s4, s5 := Section(args, d, InfoBlock), Section(args, d, CommonBlock),
      Section(args, d, PagesBlock), Section(args, d, CharactersBlock), Section(args, d, KerningPairsBlock);
    assert Upto(args, d, 1) == s1 by {
      assert [] + s1.lines == s1.lines;
    }
    assert Upto(args, d, 2) == Then(s1, s2);
    assert Upto(args, d, 3) == Then(Then(s1, s2), s3);
    assert Upto(args, d, 4) == Then(Then(Then(s1, s2), s3), s4);
  }

  /** While every selected block so far is present, the report is those sections' lines. */
  lemma {:induction false} UptoPresent(args: InspectArgs, d: Document, n: nat)
    requires n <= 5
    requires forall c :: Selected(args, c) && Rank(c) < n ==> Body(d, c).Some?
    ensures Upto(args, d, n) == Report(Prefix(args, d, n), false)
  {
    if n > 0 {
      var c := BlockAt(n - 1);
      UptoPresent(args, d, n - 1);
      assert !Section(args, d, c).threw;
    }
  }

  /** Once a section has thrown, the later ones add nothing. */
  lemma {:induction false} UptoStops(args: InspectArgs, d: Document, m: nat, n: nat)
    requires m <= n <= 5 && Upto(args, d, m).threw
    ensures Upto(args, d, n) == Upto(args, d, m)
    decreases n
  {
    if m < n {
      UptoStops(args, d, m, n - 1);
      ThrowStops(Upto(args, d, n - 1), Section(args, d, BlockAt(n - 1)));
    }
  }

  /** With every selected block present the report is the five sections one after another. */
  lemma PresentSections(args: InspectArgs, d: Document)
    requires SelectedPresent(args, d)
    ensures var r := Sections(args, d); !r.threw && r.lines == Prefix(args, d, 5)
    ensures Sections(args, d).lines ==
      Section(args, d, InfoBlock).lines + Section(args, d, CommonBlock).lines + Section(args, d, PagesBlock).lines +
      Section(args, d, CharactersBlock).lines + Section(args, d, KerningPairsBlock).lines
  {
    SectionsUpto(args, d);
    UptoPresent(args, d, 5);
    var s1, s2, s3, s4, s5 := Section(args, d, InfoBlock), Section(args, d, CommonBlock),
      Section(args, d, PagesBlock), Section(args, d, CharactersBlock), Section(args, d, KerningPairsBlock);
    assert Prefix(args, d, 1) == s1.lines;
    assert Prefix(args, d, 2) == s1.lines + s2.lines;
    assert Prefix(args, d, 3) == s1.lines + s2.lines + s3.lines;
    assert Prefix(args, d, 4) == s1.lines + s2.lines + s3.lines + s4.lines;
    assert Prefix(args, d, 5) == s1.lines + s2.lines + s3.lines + s4.lines + s5.lines;
  }

  lemma {:induction false} PrefixGrows(args: InspectArgs, d: Document, m: nat, n: nat)
    requires m <= n <= 5
    ensures Prefix(args, d, m) <= Prefix(args, d, n)
    decreases n
  {
    if m < n {
      PrefixGrows(args, d, m, n - 1);
    }
  }

  lemma {:induction false} PrefixCount(args: InspectArgs, d: Document, n: nat, b: Block)
    requires WellFormed(d) && n <= 5
    ensures multiset(Prefix(args, d, n))[Header(b)] == if Selected(args, b) && Rank(b) < n then 1 else 0
  {
    if n > 0 {
      PrefixCount(args, d, n - 1, b);
      var c := BlockAt(n - 1);
      SectionCount(args, d, b, c);
      assert Prefix(args, d, n) == Prefix(args, d, n - 1) + Section(args, d, c).lines;
      assert b == c <==> Rank(b) == n - 1;
    }
  }

  /**
    For a well-formed font whose selected blocks are all present: the report holds
    each selected block's header exactly once and no other header, and exits with 0.
   */
  lemma InspectHeaders(args: InspectArgs, files: set<string>, d: Document, b: Block)
    requires args.source in files && WellFormed(d) && SelectedPresent(args, d)
    ensures var r := InspectSpec(args, files, Some(d));
      r.status == Exited(0) &&
      multiset(r.lines)[Header(b)] == if Selected(args, b) then 1 else 0
  {
    PresentSections(args, d);
    PrefixCount(args, d, 5, b);
  }

  /**
    The headers follow report order: a selected block's header sits where the
    sections before it end, so it comes after the header of every earlier selected block.
   */
  lemma InspectOrder(args: InspectArgs, files: set<string>, d: Document, b: Block, c: Block)
    requires args.source in files && SelectedPresent(args, d) && Selected(args, b) && Selected(args, c)
    requires Rank(b) < Rank(c)
    ensures var r := InspectSpec(args, files, Some(d));
      var i, j := |Prefix(args, d, Rank(b))|, |Prefix(args, d, Rank(c))|;
      i < j < |r.lines| && r.lines[i] == Header(b) && r.lines[j] == Header(c)
  {
    PresentSections(args, d);
    PrefixGrows(args, d, Rank(b) + 1, Rank(c));
    PrefixGrows(args, d, Rank(c) + 1, 5);
    assert BlockAt(Rank(b)) == b;
    assert BlockAt(Rank(c)) == c;
    assert Prefix(args, d, Rank(b) + 1) == Prefix(args, d, Rank(b)) + Section(args, d, b).lines;
    assert Prefix(args, d, Rank(c) + 1) == Prefix(args, d, Rank(c)) + Section(args, d, c).lines;
  }

  /** The first selected null block ends the sections right after its header. */
  lemma SectionsThrowAt(args: InspectArgs, d: Document, b: Block)
    requires Selected(args, b) && Body(d, b).None?
    requires forall c :: Selected(args, c) && Rank(c) < Rank(b) ==> Body(d, c).Some?
    ensures Sections(args, d) == Report(Prefix(args, d, Rank(b)) + [Header(b)], true)
  {
    SectionsUpto(args, d);
    UptoPresent(args, d, Rank(b));
    assert BlockAt(Rank(b)) == b;
    assert Upto(args, d, Rank(b) + 1) == Report(Prefix(args, d, Rank(b)) + [Header(b)], true);
    UptoStops(args, d, Rank(b) + 1, 5);
  }

  /**
    The first selected block that is null ends the report: an exception escapes
    right after its header, so the lines are the earlier sections and that header.
   */
  lemma InspectThrowsAt(args: InspectArgs, files: set<string>, d: Document, b: Block)
    requires args.source in files && Selected(args, b) && Body(d, b).None?
    requires forall c :: Selected(args, c) && Rank(c) < Rank(b) ==> Body(d, c).Some?
    ensures var r := InspectSpec(args, files, Some(d));
      r.status == Threw && r.lines == Prefix(args, d, Rank(b)) + [Header(b)] && r.lines[|r.lines| - 1] == Header(b)
  {
    SectionsThrowAt(args, d, b);
  }

  /** The sections before b and b's header hold each header up to b's once, if selected. */
  lemma ThrownCount(args: InspectArgs, d: Document, b: Block, c: Block)
    requires WellFormed(d) && Selected(args, b)
    ensures multiset(Prefix(args, d, Rank(b)) + [Header(b)])[Header(c)] ==
      if Selected(args, c) && Rank(c) <= Rank(b) then 1 else 0
  {
    var before := Prefix(args, d, Rank(b));
    PrefixCount(args, d, Rank(b), c);
    assert multiset(before + [Header(b)]) == multiset(before) + multiset([Header(b)]);
    if c != b {
      HeaderInjective(c, b);
      assert multiset([Header(b)])[Header(c)] == 0;
    }
  }

  /**
    For a well-formed font the thrown report holds the header of each selected
    block up to the null one exactly once, and no later block's header.
   */
  lemma InspectThrowsHeaders(args: InspectArgs, files: set<string>, d: Document, b: Block, c: Block)
    requires args.source in files && WellFormed(d) && Selected(args, b) && Body(d, b).None?
    requires forall c :: Selected(args, c) && Rank(c) < Rank(b) ==> Body(d, c).Some?
    ensures var r := InspectSpec(args, files, Some(d));
      multiset(r.lines)[Header(c)] == if Selected(args, c) && Rank(c) <= Rank(b) then 1 else 0
  {
    InspectThrowsAt(args, files, d, b);
    ThrownCount(args, d, b, c);
  }

  lemma {:induction false} FlattenPrefix<T>(xs: seq<T>, f: T -> seq<string>, k: nat)
    requires k <= |xs|
    ensures Flatten(xs[..k], f) <= Flatten(xs, f)
    decreases |xs| - k
  {
    if k < |xs| {
      FlattenPrefix(xs, f, k + 1);
      FlattenStep(xs, f, k);
    } else {
      assert xs[..k] == xs;
    }
  }

  /** Entry k's lines sit right after the lines of the entries before it. */
  lemma FlattenAt<T>(xs: seq<T>, f: T -> seq<string>, k: nat)
    requires k < |xs|
    ensures var at, lines := |Flatten(xs[..k], f)|, Flatten(xs, f);
      at + |f(xs[k])| <= |lines| &&
      forall j :: 0 <= j < |f(xs[k])| ==> lines[at + j] == f(xs[k])[j]
  {
    FlattenPrefix(xs, f, k + 1);
    FlattenStep(xs, f, k);
    var at, lines, upto := |Flatten(xs[..k], f)|, Flatten(xs, f), Flatten(xs[..k + 1], f);
    forall j | 0 <= j < |f(xs[k])| ensures lines[at + j] == f(xs[k])[j] {
      assert lines[at + j] == upto[at + j];
    }
  }

  lemma {:induction false} PagesLength(ps: seq<Page>)
    ensures |Flatten(ps, PageLines)| == 3 * |ps|
  {
    if ps != [] {
      PagesLength(ps[..|ps| - 1]);
    }
  }

  /** The lines of page k are lines 3k to 3k + 2 of the pages block. */
  lemma PageAt(ps: seq<Page>, k: nat)
    requires k < |ps|
    ensures var lines, page := Flatten(ps, PageLines), PageLines(ps[k]);
      3 * k + 3 <= |lines| && forall j :: 0 <= j < 3 ==> lines[3 * k + j] == page[j]
  {
    FlattenAt(ps, PageLines, k);
    PagesLength(ps[..k]);
    var lines, page := Flatten(ps, PageLines), PageLines(ps[k]);
    var at := |Flatten(ps[..k], PageLines)|;
    assert |page| == 3;
    forall j | 0 <= j < 3 ensures lines[3 * k + j] == page[j] {
      assert at + j == 3 * k + j;
      assert lines[at + j] == page[j];
    }
  }

  /** The pages block: three lines per page, in enumeration order, the third blank. */
  lemma PagesLayout(ps: seq<Page>)
    ensures var lines := Flatten(ps, PageLines);
      |lines| == 3 * |ps| &&
      forall k :: 0 <= k < |ps| ==>
        lines[3 * k] == IdLine(ps[k].id) && lines[3 * k + 1] == FieldLine("File", ps[k].file) &&
        lines[3 * k + 2] == ""
  {
    PagesLength(ps);
    forall k | 0 <= k < |ps|
      ensures var lines := Flatten(ps, PageLines);
        lines[3 * k] == IdLine(ps[k].id) && lines[3 * k + 1] == FieldLine("File", ps[k].file) &&
        lines[3 * k + 2] == ""
    {
      PageAt(ps, k);
      var lines, page := Flatten(ps, PageLines), PageLines(ps[k]);
      assert lines[3 * k] == page[0] && lines[3 * k + 1] == page[1] && lines[3 * k + 2] == page[2] by {
        assert 3 * k == 3 * k + 0;
      }
    }
  }

  lemma KerningLinesShape(e: KerningEntry)
    ensures KerningLines(e) == [FieldLine("First", Strings.IntToString(e.pair.first)),
      FieldLine("Second", Strings.IntToString(e.pair.second)),
      FieldLine("Amount", Strings.IntToString(e.amount)), ""]
  {
    var r := PairRecord(e.pair);
    assert Render(r) == [FieldLine("First", Strings.IntToString(e.pair.first)),
      FieldLine("Second", Strings.IntToString(e.pair.second))];
  }

  lemma {:induction false} KerningLength(ks: seq<KerningEntry>)
    ensures |Flatten(ks, KerningLines)| == 4 * |ks|
  {
    if ks != [] {
      KerningLength(ks[..|ks| - 1]);
    }
  }

  /** The lines of pair k are lines 4k to 4k + 3 of the kerning list. */
  lemma KerningAt(ks: seq<KerningEntry>, k: nat)
    requires k < |ks|
    ensures var lines, pair := Flatten(ks, KerningLines), KerningLines(ks[k]);
      4 * k + 4 <= |lines| && forall j :: 0 <= j < 4 ==> lines[4 * k + j] == pair[j]
  {
    FlattenAt(ks, KerningLines, k);
    KerningLength(ks[..k]);
    var lines, pair := Flatten(ks, KerningLines), KerningLines(ks[k]);
    var at := |Flatten(ks[..k], KerningLines)|;
    KerningLinesShape(ks[k]);
    assert |pair| == 4;
    forall j | 0 <= j < 4 ensures lines[4 * k + j] == pair[j] {
      assert at + j == 4 * k + j;
      assert lines[at + j] == pair[j];
    }
  }

  /** The kerning block: "First", "Second", "Amount" and a blank line per pair. */
  lemma KerningLayout(ks: seq<KerningEntry>)
    ensures var lines := Flatten(ks, KerningLines);
      |lines| == 4 * |ks| &&
      forall k :: 0 <= k < |ks| ==>
        lines[4 * k] == FieldLine("First", Strings.IntToString(ks[k].pair.first)) &&
        lines[4 * k + 1] == FieldLine("Second", Strings.IntToString(ks[k].pair.second)) &&
        lines[4 * k + 2] == FieldLine("Amount", Strings.IntToString(ks[k].amount)) &&
        lines[4 * k + 3] == ""
  {
    KerningLength(ks);
    forall k | 0 <= k < |ks|
      ensures var lines := Flatten(ks, KerningLines);
        lines[4 * k] == FieldLine("First", Strings.IntToString(ks[k].pair.first)) &&
        lines[4 * k + 1] == FieldLine("Second", Strings.IntToString(ks[k].pair.second)) &&
        lines[4 * k + 2] == FieldLine("Amount", Strings.IntToString(ks[k].amount)) &&
        lines[4 * k + 3] == ""
    {
      KerningAt(ks, k);
      KerningLinesShape(ks[k]);
      var lines, pair := Flatten(ks, KerningLines), KerningLines(ks[k]);
      assert lines[4 * k] == pair[0] && lines[4 * k + 1] == pair[1] && lines[4 * k + 2] == pair[2] &&
        lines[4 * k + 3] == pair[3] by {
        assert 4 * k == 4 * k + 0;
      }
    }
  }

  /** A selected, non-null kerning block ends with one blank line after the last pair's. */
  lemma KerningBlockLayout(args: InspectArgs, d: Document)
    requires Selected(args, KerningPairsBlock) && d.kerningPairs.Some?
    ensures var lines := Section(args, d, KerningPairsBlock).lines;
      var n := |d.kerningPairs.value|;
      |lines| == 4 * n + 2 && lines[0] == Header(KerningPairsBlock) &&
      lines[1..4 * n + 1] == Flatten(d.kerningPairs.value, KerningLines) &&
      lines[4 * n + 1] == "" && (n > 0 ==> lines[4 * n] == "")
  {
    var ks := d.kerningPairs.value;
    var n := |ks|;
    var list := Flatten(ks, KerningLines);
    var lines := Section(args, d, KerningPairsBlock).lines;
    KerningLength(ks);
    if n > 0 {
      KerningAt(ks, n - 1);
      KerningLinesShape(ks[n - 1]);
      assert 4 * (n - 1) + 3 == 4 * n - 1;
      assert list[4 * (n - 1) + 3] == KerningLines(ks[n - 1])[3];
    }
    assert lines == [Header(KerningPairsBlock)] + list + [""];
    assert lines[1..4 * n + 1] == list;
    if n > 0 {
      assert lines[4 * n] == list[4 * n - 1];
    }
  }

  /**
    One character entry: its ID line first, the glyph line second exactly when
    the truncated code is visible, then the record's properties and a blank line.
   */
  lemma CharacterLayout(c: CharacterEntry)
    ensures var lines, u := CharacterLines(c), CharOf(c.id);
      var g := if ShowsGlyph(u) then 1 else 0;
      |lines| == |c.character| + 2 + g &&
      lines[0] == IdLine(c.id) &&
      (ShowsGlyph(u) ==> lines[1] == FieldLine("Character", [Glyph(u)])) &&
      lines[1 + g..|lines| - 1] == Render(c.character) &&
      lines[|lines| - 1] == ""
  {
    var u := CharOf(c.id);
    var glyph := if ShowsGlyph(u) then [FieldLine("Character", [Glyph(u)])] else [];
    var lines := CharacterLines(c);
    assert lines == [IdLine(c.id)] + glyph + Render(c.character) + [""];
    assert lines[1 + |glyph|..|lines| - 1] == Render(c.character);
  }

  lemma SliceOfSlice(s: seq<string>, a: nat, b: nat, i: nat, j: nat)
    requires a <= b <= |s| && i <= j <= b - a
    ensures s[a..b][i..j] == s[a + i..a + j]
  {
    var l, r := s[a..b][i..j], s[a + i..a + j];
    forall n | 0 <= n < |l| ensures l[n] == r[n] {
      assert l[n] == s[a..b][i + n];
    }
  }

  /** Entry k's lines fill the block from where the entries before it end. */
  lemma FlattenSlice<T>(xs: seq<T>, f: T -> seq<string>, k: nat)
    requires k < |xs|
    ensures var at, lines, e := |Flatten(xs[..k], f)|, Flatten(xs, f), f(xs[k]);
      at + |e| <= |lines| && lines[at..at + |e|] == e && |Flatten(xs[..k + 1], f)| == at + |e|
  {
    FlattenPrefix(xs, f, k + 1);
    FlattenStep(xs, f, k);
    var at, lines, upto := |Flatten(xs[..k], f)|, Flatten(xs, f), Flatten(xs[..k + 1], f);
    assert lines[..|upto|] == upto;
    assert lines[at..|upto|] == upto[at..];
  }

  /** Where the parts of an entry [first] + middle + body + [""] land once it sits at offset at. */
  lemma PlaceEntry(
    lines: seq<string>, at: nat, e: seq<string>, first: string, middle: seq<string>, body: seq<string>, g: nat, m: nat)
    requires at + |e| <= |lines| && lines[at..at + |e|] == e && e == [first] + middle + body + [""]
    requires g == |middle| && m == |body|
    ensures at + 2 + g + m <= |lines| && lines[at] == first && (g == 1 ==> lines[at + 1] == middle[0]) &&
      lines[at + 1 + g..at + 1 + g + m] == body && lines[at + 1 + g + m] == ""
  {
    var slice := lines[at..at + |e|];
    assert slice[0] == lines[at];
    if g == 1 {
      assert slice[1] == lines[at + 1];
    }
    SliceOfSlice(lines, at, at + |e|, 1 + g, 1 + g + m);
    assert e[1 + g..1 + g + m] == body;
    assert slice[1 + g + m] == lines[at + 1 + g + m];
  }

  /** Where the lines of one character land once they sit at offset at. */
  lemma CharacterPlaced(lines: seq<string>, at: nat, c: CharacterEntry, g: nat, m: nat)
    requires at + |CharacterLines(c)| <= |lines| && lines[at..at + |CharacterLines(c)|] == CharacterLines(c)
    requires g == (if ShowsGlyph(CharOf(c.id)) then 1 else 0) && m == |c.character|
    ensures var u := CharOf(c.id);
      |CharacterLines(c)| == 2 + g + m && at + 2 + g + m <= |lines| &&
      lines[at] == IdLine(c.id) && (ShowsGlyph(u) ==> lines[at + 1] == FieldLine("Character", [Glyph(u)])) &&
      lines[at + 1 + g..at + 1 + g + m] == Render(c.character) && lines[at + 1 + g + m] == ""
  {
    var u := CharOf(c.id);
    var glyph := if ShowsGlyph(u) then [FieldLine("Character", [Glyph(u)])] else [];
    var body := Render(c.character);
    var e := CharacterLines(c);
    assert e == [IdLine(c.id)] + glyph + body + [""];
    assert |glyph| == g && |body| == m;
    PlaceEntry(lines, at, e, IdLine(c.id), glyph, body, g, m);
  }

  /**
    Character k in the characters block: it starts at offset at, where the characters
    before it end, with its ID line; the glyph line follows exactly when the truncated
    code is visible (g is 1 then, else 0), which the entry's end at next records;
    then its properties and a blank line.
   */
  lemma CharactersLayout(cs: seq<CharacterEntry>, k: nat, lines: seq<string>, at: nat, next: nat, g: nat)
    requires k < |cs| && lines == Flatten(cs, CharacterLines)
    requires at == |Flatten(cs[..k], CharacterLines)| && next == |Flatten(cs[..k + 1], CharacterLines)|
    requires g == if ShowsGlyph(CharOf(cs[k].id)) then 1 else 0
    ensures var c := cs[k];
      var u, m := CharOf(c.id), |c.character|;
      next == at + 2 + g + m && next <= |lines| &&
      lines[at] == IdLine(c.id) &&
      (ShowsGlyph(u) ==> lines[at + 1] == FieldLine("Character", [Glyph(u)])) &&
      lines[at + 1 + g..at + 1 + g + m] == Render(c.character) &&
      lines[at + 1 + g + m] == ""
  {
    FlattenSlice(cs, CharacterLines, k);
    CharacterPlaced(lines, at, cs[k], g, |cs[k].character|);
  }

  /** Every character's ID line is in the characters block. */
  lemma CharacterIdsListed(cs: seq<CharacterEntry>)
    ensures forall k :: 0 <= k < |cs| ==> IdLine(cs[k].id) in Flatten(cs, CharacterLines)
  {
    forall k | 0 <= k < |cs| ensures IdLine(cs[k].id) in Flatten(cs, CharacterLines) {
      FlattenAt(cs, CharacterLines, k);
      var at, lines := |Flatten(cs[..k], CharacterLines)|, Flatten(cs, CharacterLines);
      assert CharacterLines(cs[k])[0] == IdLine(cs[k].id);
      assert lines[at] == CharacterLines(cs[k])[0];
    }
  }

  /**
    The (char) cast keeps the low 16 bits of the 32-bit two's-complement id: a
    negative Int32 id has the bit pattern id + 2^32. Ids 2^16 apart give the same
    character, and ids below 2^16 are kept as they are.
   */
  lemma CharOfTruncates(id: int)
    ensures -0x8000_0000 <= id < 0x8000_0000 ==>
      CharOf(id) as int == (if id < 0 then id + 0x1_0000_0000 else id) % 0x1_0000
    ensures CharOf(id + 0x1_0000) == CharOf(id)
    ensures 0 <= id < 0x1_0000 ==> CharOf(id) as int == id
    ensures CharOf(-1) as int == 0xFFFF
  {
  }

  /** Letters show their glyph; a line feed, a space and a no-break space do not. */
  lemma GlyphExamples()
    ensures ShowsGlyph(CharOf(65)) && Glyph(CharOf(65)) == 'A'
    ensures ShowsGlyph(CharOf(0x1_0000 + 65)) && Glyph(CharOf(0x1_0000 + 65)) == 'A'
    ensures !ShowsGlyph(CharOf(10)) && !ShowsGlyph(CharOf(32)) && !ShowsGlyph(CharOf(0xA0))
    ensures !ShowsGlyph(CharOf(-0x1_0000 + 0x85))
  {
  }

  /** The "--all" case on a font with one page, one character and one kerning pair. */
  lemma InspectAllCase(files: set<string>, args: InspectArgs, d: Document)
    requires "TestFont.fnt" in files
    requires args == InspectArgs("TestFont.fnt", true, false, false, false, false, false)
    requires d == Document(Some([Property("Face", "Arial")]), Some([Property("LineHeight", "32")]),
      Some([Page(0, "TestFont_0.png")]), Some([CharacterEntry(65, [Property("X", "0")])]),
      Some([KerningEntry(KerningPair(65, 66), -1)]))
    ensures var r := InspectSpec(args, files, Some(d));
      r.status == Exited(0) &&
      r.lines ==
        ["Info Block:", "Face: Arial", ""] +
        ["Common Block:", "LineHeight: 32", ""] +
        ["Pages Block:", "ID: 0", "File: TestFont_0.png", ""] +
        ["Characters Block:", "ID: 65", "Character: A", "X: 0", ""] +
        ["Kerning Pairs Block:", "First: 65", "Second: 66", "Amount: -1", "", ""]
  {
    AllCaseFirstSections(args, d);
    AllCaseLastSections(args, d);
    PresentSections(args, d);
  }

  /** The first three sections of the --all case. */
  lemma AllCaseFirstSections(args: InspectArgs, d: Document)
    requires args.all
    requires d == Document(Some([Property("Face", "Arial")]), Some([Property("LineHeight", "32")]),
      Some([Page(0, "TestFont_0.png")]), Some([CharacterEntry(65, [Property("X", "0")])]),
      Some([KerningEntry(KerningPair(65, 66), -1)]))
    ensures Section(args, d, InfoBlock).lines == ["Info Block:", "Face: Arial", ""]
    ensures Section(args, d, CommonBlock).lines == ["Common Block:", "LineHeight: 32", ""]
    ensures Section(args, d, PagesBlock).lines == ["Pages Block:", "ID: 0", "File: TestFont_0.png", ""]
  {
    assert Section(args, d, InfoBlock).lines == ["Info Block:", "Face: Arial", ""] by {
      AllCaseRecords();
      assert Header(InfoBlock) == "Info Block:";
    }
    assert Section(args, d, CommonBlock).lines == ["Common Block:", "LineHeight: 32", ""] by {
      AllCaseRecords();
      assert Header(CommonBlock) == "Common Block:";
    }
    AllCasePages();
    assert Header(PagesBlock) == "Pages Block:";
  }

  /** The last two sections of the --all case. */
  lemma AllCaseLastSections(args: InspectArgs, d: Document)
    requires args.all
    requires d == Document(Some([Property("Face", "Arial")]), Some([Property("LineHeight", "32")]),
      Some([Page(0, "TestFont_0.png")]), Some([CharacterEntry(65, [Property("X", "0")])]),
      Some([KerningEntry(KerningPair(65, 66), -1)]))
    ensures Section(args, d, CharactersBlock).lines == ["Characters Block:", "ID: 65", "Character: A", "X: 0", ""]
    ensures Section(args, d, KerningPairsBlock).lines ==
      ["Kerning Pairs Block:", "First: 65", "Second: 66", "Amount: -1", "", ""]
  {
    assert Section(args, d, CharactersBlock).lines == ["Characters Block:", "ID: 65", "Character: A", "X: 0", ""] by {
      AllCaseCharacters();
      assert Header(CharactersBlock) == "Characters Block:";
    }
    AllCaseKerning();
    assert Header(KerningPairsBlock) == "Kerning Pairs Block:";
  }

  /** The dumps of the --all case's records and entries. */
  lemma AllCaseRecords()
    ensures Render([Property("Face", "Arial")]) == ["Face: Arial"]
    ensures Render([Property("LineHeight", "32")]) == ["LineHeight: 32"]
    ensures Render([Property("X", "0")]) == ["X: 0"]
  {
    assert FieldLine("Face", "Arial") == "Face: Arial";
    assert Render([Property("Face", "Arial")])[0] == "Face: Arial";
    assert FieldLine("LineHeight", "32") == "LineHeight: 32";
    assert Render([Property("LineHeight", "32")])[0] == "LineHeight: 32";
    assert FieldLine("X", "0") == "X: 0";
    assert Render([Property("X", "0")])[0] == "X: 0";
  }

  lemma AllCasePages()
    ensures Flatten([Page(0, "TestFont_0.png")], PageLines) == ["ID: 0", "File: TestFont_0.png", ""]
  {
    assert Strings.NatToString(0) == "0";
    assert [Page(0, "TestFont_0.png")][..0] == [];
    assert IdLine(0) == "ID: 0";
    assert FieldLine("File", "TestFont_0.png") == "File: TestFont_0.png";
    assert PageLines(Page(0, "TestFont_0.png")) == ["ID: 0", "File: TestFont_0.png", ""];
  }

  lemma AllCaseCharacters()
    ensures Flatten([CharacterEntry(65, [Property("X", "0")])], CharacterLines) == ["ID: 65", "Character: A", "X: 0", ""]
  {
    var ch := CharacterEntry(65, [Property("X", "0")]);
    AllCaseRecords();
    assert Strings.NatToString(6) == "6";
    assert Strings.NatToString(65) == "65";
    assert Glyph(CharOf(65)) == 'A';
    assert FieldLine("Character", [Glyph(CharOf(65))]) == "Character: A";
    assert IdLine(65) == "ID: 65";
    assert ShowsGlyph(CharOf(65));
    assert CharacterLines(ch) == ["ID: 65"] + ["Character: A"] + ["X: 0"] + [""];
    assert [ch][..0] == [];
  }

  lemma AllCaseKerning()
    ensures Flatten([KerningEntry(KerningPair(65, 66), -1)], KerningLines) == ["First: 65", "Second: 66", "Amount: -1", ""]
  {
    var e := KerningEntry(KerningPair(65, 66), -1);
    assert Strings.NatToString(6) == "6";
    assert Strings.NatToString(65) == "65";
    assert Strings.NatToString(66) == "66";
    assert Strings.NatToString(1) == "1";
    assert Strings.IntToString(-1) == "-1";
    assert Strings.IntToString(65) == "65" && Strings.IntToString(66) == "66";
    assert FieldLine("First", "65") == "First: 65" && FieldLine("Second", "66") == "Second: 66";
    assert FieldLine("Amount", "-1") == "Amount: -1";
    KerningLinesShape(e);
    assert KerningLines(e) == ["First: 65", "Second: 66", "Amount: -1", ""];
    assert [e][..0] == [];
  }
}
