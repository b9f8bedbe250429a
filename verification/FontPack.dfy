/** The font packs of scripts/sfr_font_text.py: what is read of one, and what is written. */
module FontPack {
  import opened Options
  import opened FontBytes

  const PACK: Bytes := [0x70, 0x61, 0x63, 0x6B]
  const FONTDATF: Bytes := [0x46, 0x4F, 0x4E, 0x54, 0x44, 0x41, 0x54, 0x46]
  const FONTSTLB: Bytes := [0x46, 0x4F, 0x4E, 0x54, 0x53, 0x54, 0x4C, 0x42]
  const DDS: Bytes := [0x44, 0x44, 0x53, 0x20]
  const END: nat := 0x0100_0000
  const PAGE_W: nat := 512
  const CELL_H: nat := 34
  const PER_ROW: nat := 22

  // ------------------------------------------------------------ entries and their offsets

  datatype Layout = Layout(table: nat, bounds: seq<(nat, nat)>)

  /** The number of entries and where their offsets are, for the two versions. */
  function PackCount(d: Bytes): Option<(nat, nat)> {
    if |d| < 6 || d[..4] != PACK then None
    else if d[5] == 1 then if |d| < 10 then None else Some((Get16(d, 8), 16))
    else if d[5] == 2 then if |d| < 12 then None else Some((Get16(d, 8) + Get16(d, 10), 20))
    else None
  }

  /** pack_layout. */
  function PackLayout(d: Bytes): Option<Layout> {
    var found := PackCount(d);
    if found.None? || |d| < found.value.1 + 4 * (found.value.0 + 1) then None
    else
      var offsets := Get32s(d, found.value.1, found.value.0 + 1);
      Some(Layout(found.value.1, seq(found.value.0, i requires 0 <= i < found.value.0 => (offsets[i], offsets[i + 1]))))
  }

  /** Where the entries begin. */
  function Base(header: Bytes, entries: seq<Bytes>): nat {
    |header| + 4 * (|entries| + 1)
  }

  predicate PackFits(header: Bytes, entries: seq<Bytes>) {
    Base(header, entries) + |Concat(entries)| < TWO_32
  }

  function Offsets(header: Bytes, entries: seq<Bytes>): (offsets: seq<nat>)
    requires PackFits(header, entries)
    ensures |offsets| == |entries| + 1 && forall k | 0 <= k < |offsets| :: offsets[k] < TWO_32
  {
    StartsBelow(entries);
    seq(|entries| + 1, i requires 0 <= i <= |entries| => Base(header, entries) + Start(entries, i))
  }

  lemma StartsBelow(entries: seq<Bytes>)
    ensures forall i | 0 <= i <= |entries| :: Start(entries, i) <= |Concat(entries)|
  {
    forall i | 0 <= i <= |entries| ensures Start(entries, i) <= |Concat(entries)| {
      if i < |entries| {
        ConcatAt(entries, i);
      } else {
        StartOfAll(entries);
      }
    }
  }

  function Packed(header: Bytes, entries: seq<Bytes>): Bytes
    requires PackFits(header, entries)
  {
    header + Put32s(Offsets(header, entries)) + Concat(entries)
  }

  // ------------------------------------------------------------ the font

  datatype Glyph = Glyph(width: int, left: int, code: nat, number: nat, right: int)

  datatype Font = Font(
    packHeader: Bytes,
    entries: seq<Bytes>,
    fontAt: nat,
    header: Bytes,
    glyphs: seq<Glyph>,
    trailer: Bytes,
    texture: Bytes,
    stringsHeader: Bytes,
    strings: seq<seq<nat>>)

  function ReadGlyph(d: Bytes, at: nat): Glyph
    requires at + 16 <= |d|
  {
    Glyph(GetSigned(d, at), GetSigned(d, at + 4), Get16(d, at + 8), Get16(d, at + 10), GetSigned(d, at + 12))
  }

  function ReadGlyphs(d: Bytes, at: nat, count: nat): seq<Glyph>
    requires at + 16 * count <= |d|
  {
    seq(count, k requires 0 <= k < count => ReadGlyph(d, at + 16 * k))
  }

  function Tag(d: Bytes, begin: nat): Bytes {
    Slice(d, begin, begin + 8)
  }

  /** The first entry from i on that shows the font's tag, or the number of entries. */
  function FirstFont(d: Bytes, bounds: seq<(nat, nat)>, i: nat): (at: nat)
    requires i <= |bounds|
    ensures i <= at <= |bounds|
    decreases |bounds| - i
  {
    if i == |bounds| || Tag(d, bounds[i].0) == FONTDATF then i else FirstFont(d, bounds, i + 1)
  }

  /** Values up to the end mark or the end of the chunk. */
  function ReadString(d: Bytes, at: nat, end: nat): Option<seq<nat>>
    decreases end - at
  {
    if at + 4 > end then Some([])
    else if at + 4 > |d| then None
    else
      var v := Get32(d, at);
      if v == END then Some([])
      else
        var rest := ReadString(d, at + 4, end);
        if rest.None? then None else Some([v] + rest.value)
  }

  function ReadEach(d: Bytes, begin: nat, end: nat, offsets: seq<nat>): Option<seq<seq<nat>>> {
    if offsets == [] then Some([])
    else
      var front, last := ReadEach(d, begin, end, offsets[..|offsets| - 1]),
        ReadString(d, begin + offsets[|offsets| - 1], end);
      if front.None? || last.None? then None else Some(front.value + [last.value])
  }

  function StringsOf(d: Bytes, begin: nat, end: nat): Option<seq<seq<nat>>> {
    if begin + 20 > |d| || begin + 20 + 4 * Get32(d, begin + 16) > |d| then None
    else ReadEach(d, begin, end, Get32s(d, begin + 20, Get32(d, begin + 16)))
  }

  /** The inner loop of read_strings: one string, from where it begins. */
  method ReadOne(d: Bytes, begin: nat, end: nat) returns (r: Option<seq<nat>>)
    ensures r == ReadString(d, begin, end)
  {
    var at, values := begin, [];
    assert JoinRest([], ReadString(d, begin, end)) == ReadString(d, begin, end) by {
      JoinNone(ReadString(d, begin, end));
    }
    while at + 4 <= end
      invariant JoinRest(values, ReadString(d, at, end)) == ReadString(d, begin, end)
      decreases end - at
    {
      if at + 4 > |d| {
        return None;
      }
      var v := Get32(d, at);
      if v == END {
        assert values + [] == values;
        return Some(values);
      }
      JoinOne(values, v, ReadString(d, at + 4, end));
      values := values + [v];
      at := at + 4;
    }
    assert values + [] == values;
    return Some(values);
  }

  /** read_strings. */
  method ReadStrings(d: Bytes, begin: nat, end: nat) returns (r: Option<seq<seq<nat>>>)
    ensures r == StringsOf(d, begin, end)
  {
    hide ReadString;
    if begin + 20 > |d| || begin + 20 + 4 * Get32(d, begin + 16) > |d| {
      return None;
    }
    var offsets := Get32s(d, begin + 20, Get32(d, begin + 16));
    var strings: seq<seq<nat>> := [];
    for k := 0 to |offsets|
      invariant ReadEach(d, begin, end, offsets[..k]) == Some(strings)
    {
      EachNext(d, begin, end, offsets, k);
      var values := ReadOne(d, begin + offsets[k], end);
      if values.None? {
        FailsLater(d, begin, end, offsets, k);
        return None;
      }
      strings := strings + [values.value];
    }
    assert offsets[..|offsets|] == offsets;
    return Some(strings);
  }

  lemma EachNext(d: Bytes, begin: nat, end: nat, offsets: seq<nat>, k: nat)
    requires k < |offsets|
    ensures ReadEach(d, begin, end, offsets[..k + 1]) ==
      (var front, last := ReadEach(d, begin, end, offsets[..k]), ReadString(d, begin + offsets[k], end);
       if front.None? || last.None? then None else Some(front.value + [last.value]))
  {
    assert offsets[..k + 1][..k] == offsets[..k];
  }

  lemma JoinNone(rest: Option<seq<nat>>)
    ensures JoinRest([], rest) == rest
  {
    if rest.Some? {
      assert [] + rest.value == rest.value;
    }
  }

  /** A string already read and what follows it. */
  function JoinRest(values: seq<nat>, rest: Option<seq<nat>>): Option<seq<nat>> {
    if rest.None? then None else Some(values + rest.value)
  }

  lemma JoinOne(values: seq<nat>, v: nat, rest: Option<seq<nat>>)
    ensures JoinRest(values, if rest.None? then None else Some([v] + rest.value)) == JoinRest(values + [v], rest)
  {
    if rest.Some? {
      assert values + ([v] + rest.value) == values + [v] + rest.value;
    }
  }

  lemma {:induction false} FailsLater(d: Bytes, begin: nat, end: nat, offsets: seq<nat>, k: nat)
    requires k < |offsets| && ReadString(d, begin + offsets[k], end) == None
    ensures ReadEach(d, begin, end, offsets) == None
    decreases |offsets|
  {
    if k < |offsets| - 1 {
      FailsLater(d, begin, end, offsets[..|offsets| - 1], k);
    }
  }

  /** FontFile: None where the original raises an error. */
  function ReadFont(d: Bytes): Option<Font> {
    var layout := PackLayout(d);
    if layout.None? then None
    else
      var bounds := layout.value.bounds;
      var at := FirstFont(d, bounds, 0);
      if at + 2 >= |bounds| || Tag(d, bounds[at + 2].0) != FONTSTLB then None
      else
        var font, pages, table := bounds[at], bounds[at + 1], bounds[at + 2];
        if font.0 + 20 > |d| || font.0 + 60 + 16 * Get32(d, font.0 + 16) > |d| then None
        else
          var count, strings := Get32(d, font.0 + 16), StringsOf(d, table.0, table.1);
          if strings.None? then None
          else Some(Font(
            d[..layout.value.table],
            seq(|bounds|, i requires 0 <= i < |bounds| => Slice(d, bounds[i].0, bounds[i].1)),
            at,
            Slice(d, font.0, font.0 + 60),
            ReadGlyphs(d, font.0 + 60, count),
            Slice(d, font.0 + 60 + 16 * count, font.1),
            Slice(d, pages.0, pages.1),
            Slice(d, table.0 + 8, table.0 + 16),
            strings.value))
  }

  // ------------------------------------------------------------ the pages

  datatype Page = Page(height: nat, pixels: Bytes)
  datatype PageRead = PageRead(name: Bytes, page: Page, template: Bytes)

  /** Pieces between zero bytes. */
  function Split(d: Bytes): (pieces: seq<Bytes>)
    ensures pieces != []
  {
    if d == [] then [[]]
    else
      var rest := Split(d[1..]);
      if d[0] == 0 then [[]] + rest else [[d[0]] + rest[0]] + rest[1..]
  }

  /** Pages are 512 wide, four bytes a pixel. */
  function PixelBytes(height: nat): nat {
    2048 * height
  }

  function ReadPage(name: Bytes, dds: Bytes): Option<PageRead> {
    if |dds| < 20 || dds[..4] != DDS || GetLittle(dds, 16) != PAGE_W then None
    else
      var height := GetLittle(dds, 12);
      Some(PageRead(name, Page(height, Slice(dds, 128, 128 + PixelBytes(height))), Slice(dds, 0, 128)))
  }

  function ReadPages(t: Bytes, names: seq<Bytes>, offsets: seq<nat>, sizes: seq<nat>, k: nat): Option<seq<PageRead>>
    requires k <= |names| && k <= |offsets| && |offsets| == |sizes|
  {
    if k == 0 then Some([])
    else
      var front := ReadPages(t, names, offsets, sizes, k - 1);
      var last := ReadPage(names[k - 1], Slice(t, offsets[k - 1], offsets[k - 1] + sizes[k - 1]));
      if front.None? || last.None? then None else Some(front.value + [last.value])
  }

  /** FontFile.pages. */
  function Pages(t: Bytes): Option<seq<PageRead>> {
    if |t| < 2 || |t| < 4 + 8 * Get16(t, 0) || Get16(t, 0) == 0 then None
    else
      var count := Get16(t, 0);
      var offsets, sizes := Get32s(t, 4, count), Get32s(t, 4 + 4 * count, count);
      var pieces := Split(Slice(t, 4 + 9 * count, offsets[0]));
      ReadPages(t, pieces, offsets, sizes, if |pieces| < count then |pieces| else count)
  }

  // ------------------------------------------------------------ writing

  function Patch(d: Bytes, at: nat, b: Bytes): (r: Bytes)
    requires at + |b| <= |d|
    ensures |r| == |d| && r[at..at + |b|] == b && r[..at] == d[..at] && r[at + |b|..] == d[at + |b|..]
  {
    d[..at] + b + d[at + |b|..]
  }

  predicate GlyphFits(g: Glyph) {
    && -0x8000_0000 <= g.width < 0x8000_0000 && -0x8000_0000 <= g.left < 0x8000_0000
      && -0x8000_0000 <= g.right < 0x8000_0000
    && g.code < TWO_16 && g.number < TWO_16
  }

  function Record(g: Glyph): (b: Bytes)
    requires GlyphFits(g)
    ensures |b| == 16
  {
    Put32(Signed(g.width)) + Put32(Signed(g.left)) + Put16(g.code) + Put16(g.number) + Put32(Signed(g.right))
  }

  predicate PagesFit(pages: seq<Page>) {
    && 0 < |pages| < TWO_16
    && forall k | 0 <= k < |pages| :: pages[k].height < TWO_16 && |pages[k].pixels| == PixelBytes(pages[k].height)
  }

  function CellsOf(height: nat): (cells: nat)
    requires height < TWO_16
    ensures cells < TWO_16
  {
    height / CELL_H * PER_ROW
  }

  function PageFields(pages: seq<Page>): (b: Bytes)
    requires PagesFit(pages)
    ensures |b| == 10
  {
    Put16(|pages|) + Put16(PAGE_W) + Put16(pages[0].height) + Put16(PAGE_W) + Put16(pages[|pages| - 1].height)
  }

  function Counted(header: Bytes, count: nat): (h: Bytes)
    requires |header| == 60 && count < TWO_32
    ensures |h| == 60 && h[16..20] == Put32(count) && h[..16] == header[..16]
  {
    Patch(header, 16, Put32(count))
  }

  /** The font's header, with its counts and, unless the pages stay, its page fields. */
  function HeaderOf(header: Bytes, count: nat, pages: seq<Page>, same: bool): (h: Bytes)
    requires |header| == 60 && count < TWO_32 && PagesFit(pages)
    ensures |h| == 60
  {
    var counted := Counted(header, count);
    if same then counted
    else Patch(Patch(Patch(counted, 20, Put32(CellsOf(pages[0].height))), 24, PageFields(pages)), 36,
      Put16(pages[0].height / CELL_H))
  }

  lemma PatchKeeps(d: Bytes, at: nat, b: Bytes, begin: nat, end: nat)
    requires at + |b| <= |d| && begin <= end <= at
    ensures Patch(d, at, b)[begin..end] == d[begin..end]
  {
  }

  lemma HeaderCounts(header: Bytes, count: nat, pages: seq<Page>, same: bool)
    requires |header| == 60 && count < TWO_32 && PagesFit(pages)
    ensures HeaderOf(header, count, pages, same)[16..20] == Put32(count)
    ensures HeaderOf(header, count, pages, same)[0..16] == header[0..16]
  {
    hide Patch, PageFields, CellsOf, Put32, Put16;
    var counted := Counted(header, count);
    var first := Patch(counted, 20, Put32(CellsOf(pages[0].height)));
    var second := Patch(first, 24, PageFields(pages));
    PatchKeeps(counted, 20, Put32(CellsOf(pages[0].height)), 16, 20);
    PatchKeeps(counted, 20, Put32(CellsOf(pages[0].height)), 0, 16);
    PatchKeeps(first, 24, PageFields(pages), 16, 20);
    PatchKeeps(first, 24, PageFields(pages), 0, 16);
    PatchKeeps(second, 36, Put16(pages[0].height / CELL_H), 16, 20);
    PatchKeeps(second, 36, Put16(pages[0].height / CELL_H), 0, 16);
  }

  function FontData(header: Bytes, glyphs: seq<Glyph>, trailer: Bytes): Bytes
    requires forall k | 0 <= k < |glyphs| :: GlyphFits(glyphs[k])
  {
    header + Concat(Records(glyphs)) + trailer
  }

  function Records(glyphs: seq<Glyph>): (records: seq<Bytes>)
    requires forall k | 0 <= k < |glyphs| :: GlyphFits(glyphs[k])
    ensures |records| == |glyphs| && forall k | 0 <= k < |records| :: |records[k]| == 16
  {
    seq(|glyphs|, k requires 0 <= k < |glyphs| => Record(glyphs[k]))
  }

  /** Each name and a zero byte. */
  function NameParts(names: seq<Bytes>): (parts: seq<Bytes>)
    ensures |parts| == |names|
  {
    seq(|names|, k requires 0 <= k < |names| => names[k] + [0])
  }

  function HeadSize(count: nat, names: seq<Bytes>): nat {
    4 + 8 * count + count + |Concat(NameParts(names))|
  }

  /** Where the first page goes. */
  function FirstPage(count: nat, names: seq<Bytes>): (first: nat)
    ensures first >= HeadSize(count, names)
  {
    var size := HeadSize(count, names);
    if size <= 64 then 64 else (size + 63) / 64 * 64 + 64
  }

  function Blob(template: Bytes, page: Page): Bytes
    requires |template| == 128 && page.height < TWO_16
  {
    Patch(template, 12, PutLittle(page.height) + PutLittle(PAGE_W)) + page.pixels
  }

  function Blobs(template: Bytes, pages: seq<Page>): (blobs: seq<Bytes>)
    requires |template| == 128 && PagesFit(pages)
    ensures |blobs| == |pages|
  {
    seq(|pages|, k requires 0 <= k < |pages| => Blob(template, pages[k]))
  }

  predicate TextureFits(template: Bytes, pages: seq<Page>, names: seq<Bytes>) {
    && |template| == 128 && PagesFit(pages) && |names| == |pages|
    && FirstPage(|pages|, names) + |Concat(Blobs(template, pages))| < TWO_32
  }

  function PageOffsets(template: Bytes, pages: seq<Page>, names: seq<Bytes>): (offsets: seq<nat>)
    requires TextureFits(template, pages, names)
    ensures |offsets| == |pages| && forall k | 0 <= k < |offsets| :: offsets[k] < TWO_32
  {
    StartsBelow(Blobs(template, pages));
    seq(|pages|, k requires 0 <= k < |pages| => FirstPage(|pages|, names) + Start(Blobs(template, pages), k))
  }

  function PageSizes(template: Bytes, pages: seq<Page>, names: seq<Bytes>): (sizes: seq<nat>)
    requires TextureFits(template, pages, names)
    ensures |sizes| == |pages| && forall k | 0 <= k < |sizes| :: sizes[k] < TWO_32
  {
    var blobs := Blobs(template, pages);
    forall k | 0 <= k < |blobs| ensures |blobs[k]| <= |Concat(blobs)| {
      ConcatAt(blobs, k);
    }
    seq(|pages|, k requires 0 <= k < |pages| => |blobs[k]|)
  }

  function Texture(template: Bytes, pages: seq<Page>, names: seq<Bytes>): Bytes
    requires TextureFits(template, pages, names)
  {
    Put16(|pages|) + Put16(1) + Put32s(PageOffsets(template, pages, names)) + Put32s(PageSizes(template, pages, names))
    + seq(|pages|, i => 0x11) + Concat(NameParts(names)) + Zeros(FirstPage(|pages|, names) - HeadSize(|pages|, names))
    + Concat(Blobs(template, pages))
  }

  predicate StringsFit(strings: seq<seq<nat>>) {
    && 20 + 4 * |strings| + |Concat(Bodies(strings))| < TWO_32
    && forall k | 0 <= k < |strings| :: forall i | 0 <= i < |strings[k]| ::
      strings[k][i] < TWO_32 && strings[k][i] != END
  }

  function Mark(values: seq<nat>, i: nat): (b: Bytes)
    ensures |b| == 4
  {
    Put32((if i < |values| then values[i] else END) % TWO_32)
  }

  function Marks(values: seq<nat>): (parts: seq<Bytes>)
    ensures |parts| == |values| + 1 && forall k | 0 <= k < |parts| :: |parts[k]| == 4
  {
    seq(|values| + 1, i requires 0 <= i <= |values| => Mark(values, i))
  }

  /** A string's values and the end mark. */
  function Body(values: seq<nat>): Bytes {
    Concat(Marks(values))
  }

  function Bodies(strings: seq<seq<nat>>): (bodies: seq<Bytes>)
    ensures |bodies| == |strings|
  {
    seq(|strings|, k requires 0 <= k < |strings| => Body(strings[k]))
  }

  function StringOffsets(strings: seq<seq<nat>>): (offsets: seq<nat>)
    requires StringsFit(strings)
    ensures |offsets| == |strings| && forall k | 0 <= k < |offsets| :: offsets[k] < TWO_32
  {
    StartsBelow(Bodies(strings));
    seq(|strings|, k requires 0 <= k < |strings| => 20 + 4 * |strings| + Start(Bodies(strings), k))
  }

  function StringTable(header: Bytes, strings: seq<seq<nat>>): Bytes
    requires StringsFit(strings)
  {
    FONTSTLB + header + Put32(|strings|) + Put32s(StringOffsets(strings)) + Concat(Bodies(strings))
  }

  /** The entries as they will be, before the last is padded. */
  function Rebuilt(font: Font, glyphs: seq<Glyph>, pages: seq<Page>, strings: seq<seq<nat>>, names: seq<Bytes>,
      same: bool, template: Bytes): (entries: seq<Bytes>)
    requires font.fontAt + 3 <= |font.entries| && PartsFit(font, glyphs, pages, strings, names, template)
    ensures |entries| == |font.entries|
  {
    font.entries[..font.fontAt]
    + [FontData(HeaderOf(font.header, |glyphs|, pages, same), glyphs, font.trailer), Texture(template, pages, names),
       StringTable(font.stringsHeader, strings)]
    + font.entries[font.fontAt + 3..]
  }

  predicate PartsFit(font: Font, glyphs: seq<Glyph>, pages: seq<Page>, strings: seq<seq<nat>>, names: seq<Bytes>,
      template: Bytes) {
    && |font.header| == 60 && |glyphs| < TWO_32 && (forall k | 0 <= k < |glyphs| :: GlyphFits(glyphs[k]))
    && TextureFits(template, pages, names) && StringsFit(strings)
  }

  /** Zero bytes that make the file a multiple of sixteen, when its last entry is the strings'. */
  function PadOf(font: Font, entries: seq<Bytes>): (pad: nat)
    ensures pad < 16
  {
    if font.fontAt + 3 == |entries| then -(Base(font.packHeader, entries) + |Concat(entries)|) % 16 else 0
  }

  function PaddedLast(entries: seq<Bytes>, pad: nat): (padded: seq<Bytes>)
    requires entries != []
    ensures |padded| == |entries|
  {
    entries[|entries| - 1 := entries[|entries| - 1] + Zeros(pad)]
  }

  function Final(font: Font, glyphs: seq<Glyph>, pages: seq<Page>, strings: seq<seq<nat>>, names: seq<Bytes>,
      same: bool, template: Bytes): (entries: seq<Bytes>)
    requires font.fontAt + 3 <= |font.entries| && PartsFit(font, glyphs, pages, strings, names, template)
    ensures |entries| == |font.entries|
  {
    var entries := Rebuilt(font, glyphs, pages, strings, names, same, template);
    PaddedLast(entries, PadOf(font, entries))
  }

  // ------------------------------------------------------------ the loops of serialize

  /** Offsets of parts laid end to end from a place, and where they end. */
  method Place(first: nat, parts: seq<Bytes>) returns (offsets: seq<nat>, at: nat)
    ensures |offsets| == |parts| && forall k | 0 <= k < |parts| :: offsets[k] == first + Start(parts, k)
    ensures at == first + |Concat(parts)|
  {
    offsets, at := [], first;
    StartOfAll(parts);
    for k := 0 to |parts|
      invariant |offsets| == k && at == first + Start(parts, k)
      invariant forall i | 0 <= i < k :: offsets[i] == first + Start(parts, i)
    {
      ConcatAt(parts, k);
      offsets := offsets + [at];
      at := at + |parts[k]|;
    }
  }

  method WriteFontData(header: Bytes, glyphs: seq<Glyph>, trailer: Bytes) returns (d: Bytes)
    requires forall k | 0 <= k < |glyphs| :: GlyphFits(glyphs[k])
    ensures d == FontData(header, glyphs, trailer)
  {
    hide Record, GlyphFits;
    d := header;
    for k := 0 to |glyphs|
      invariant d == header + Concat(Records(glyphs)[..k])
    {
      var records := Records(glyphs);
      assert records[..k + 1] == records[..k] + [records[k]];
      ConcatOne(records[..k], records[k]);
      d := d + Record(glyphs[k]);
    }
    assert Records(glyphs)[..|glyphs|] == Records(glyphs);
    d := d + trailer;
  }

  method WriteTexture(template: Bytes, pages: seq<Page>, names: seq<Bytes>) returns (d: Bytes)
    requires TextureFits(template, pages, names)
    ensures d == Texture(template, pages, names)
  {
    hide Concat, Blob, FirstPage, Put32s, NameParts, HeadSize, PixelBytes;
    HeaderFits(template, pages, names);
    var blobs := Blobs(template, pages);
    var offsets, at := Place(FirstPage(|pages|, names), blobs);
    assert offsets == PageOffsets(template, pages, names);
    d := Put16(|pages|) + Put16(1) + Put32s(offsets) + Put32s(PageSizes(template, pages, names))
      + seq(|pages|, i => 0x11) + Concat(NameParts(names))
        + Zeros(FirstPage(|pages|, names) - HeadSize(|pages|, names));
    d := d + Concat(blobs);
  }

  method WriteStrings(header: Bytes, strings: seq<seq<nat>>) returns (d: Bytes)
    requires StringsFit(strings)
    ensures d == StringTable(header, strings)
  {
    hide Body, Put32s, Put32;
    var body: Bytes, offsets: seq<nat> := [], [];
    var bodies := Bodies(strings);
    for k := 0 to |strings|
      invariant body == Concat(bodies[..k]) && |offsets| == k
      invariant forall i | 0 <= i < k :: offsets[i] == 20 + 4 * |strings| + Start(bodies, i)
    {
      offsets := offsets + [20 + 4 * |strings| + |body|];
      assert bodies[..k + 1] == bodies[..k] + [bodies[k]];
      ConcatOne(bodies[..k], bodies[k]);
      body := body + Body(strings[k]);
    }
    assert bodies[..|strings|] == bodies && offsets == StringOffsets(strings);
    d := FONTSTLB + header + Put32(|strings|) + Put32s(offsets) + body;
  }

  /** serialize. */
  method Serialize(font: Font, glyphs: seq<Glyph>, pages: seq<Page>, strings: seq<seq<nat>>, names: seq<Bytes>,
      same: bool, template: Bytes)
      returns (d: Bytes)
    requires font.fontAt + 3 <= |font.entries| && PartsFit(font, glyphs, pages, strings, names, template)
    requires PackFits(font.packHeader, Final(font, glyphs, pages, strings, names, same, template))
    ensures d == Packed(font.packHeader, Final(font, glyphs, pages, strings, names, same, template))
  {
    hide FontData, Texture, StringTable, TextureFits, StringsFit, GlyphFits, HeaderOf, Put32s, PackFits, Base, Zeros;
    HeaderFits(template, pages, names);
    var fontdat := WriteFontData(HeaderOf(font.header, |glyphs|, pages, same), glyphs, font.trailer);
    var texture := WriteTexture(template, pages, names);
    var table := WriteStrings(font.stringsHeader, strings);
    var entries := font.entries[..font.fontAt] + [fontdat, texture, table] + font.entries[font.fontAt + 3..];
    entries := PaddedLast(entries, PadOf(font, entries));
    var offsets, at := Place(Base(font.packHeader, entries), entries);
    offsets := offsets + [at];
    OffsetsAre(font.packHeader, entries, offsets);
    d := font.packHeader + Put32s(offsets) + Concat(entries);
  }

  lemma HeaderFits(template: Bytes, pages: seq<Page>, names: seq<Bytes>)
    requires TextureFits(template, pages, names)
    ensures PagesFit(pages)
  {
  }

  lemma OffsetsAre(header: Bytes, entries: seq<Bytes>, offsets: seq<nat>)
    requires PackFits(header, entries) && |offsets| == |entries| + 1
    requires forall k | 0 <= k < |entries| :: offsets[k] == Base(header, entries) + Start(entries, k)
    requires offsets[|entries|] == Base(header, entries) + |Concat(entries)|
    ensures offsets == Offsets(header, entries)
  {
    StartOfAll(entries);
  }
}
