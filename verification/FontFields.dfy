/** The fields of a written font file, by place and byte (scripts/sfr_font_text.py). */
module FontFields {
  import opened Options
  import opened FontBytes
  import opened FontPack
  import opened FontRoundTrip

  // ------------------------------------------------------------ byte order

  /** Numbers are written with the highest byte first. */
  lemma BytesOf32(v: nat)
    requires v < TWO_32
    ensures Put32(v) == [v / 0x100_0000, v / 0x1_0000 % 0x100, v / 0x100 % 0x100, v % 0x100]
  {
    var high, low := v / TWO_16, v % TWO_16;
    assert high / 256 == v / 0x100_0000 && high % 256 == v / 0x1_0000 % 0x100;
    assert low / 256 == v / 0x100 % 0x100 && low % 256 == v % 0x100;
  }

  lemma BytesOf16(v: nat)
    requires v < TWO_16
    ensures Put16(v) == [v / 0x100, v % 0x100]
  {
  }

  /** But the lowest first in a page's own header. */
  lemma BytesOfLittle(v: nat)
    requires v < TWO_32
    ensures PutLittle(v) == [v % 0x100, v / 0x100 % 0x100, v / 0x1_0000 % 0x100, v / 0x100_0000]
  {
    BytesOf32(v);
  }

  lemma ReadBytes(d: Bytes, at: nat)
    requires at + 4 <= |d|
    ensures var a: nat, b: nat, c: nat, e: nat := d[at], d[at + 1], d[at + 2], d[at + 3];
      && Get32(d, at) == a * 0x100_0000 + b * 0x1_0000 + c * 0x100 + e
      && GetLittle(d, at) == e * 0x100_0000 + c * 0x1_0000 + b * 0x100 + a
      && Get16(d, at) == a * 0x100 + b
    ensures GetSigned(d, at) == if d[at] >= 0x80 then Get32(d, at) - 0x1_0000_0000 else Get32(d, at)
  {
  }

  // ------------------------------------------------------------ glyphs

  /** A glyph record: width, left side, character, glyph number, right side. */
  lemma RecordFields(g: Glyph)
    requires GlyphFits(g)
    ensures |Record(g)| == 16
    ensures GetSigned(Record(g), 0) == g.width && GetSigned(Record(g), 4) == g.left
    ensures Get16(Record(g), 8) == g.code && Get16(Record(g), 10) == g.number && GetSigned(Record(g), 12) == g.right
  {
    hide Put32, Put16, Get32, Get16, Signed, GetSigned;
    GetSignedPut(g.width);
    GetSignedPut(g.left);
    GetSignedPut(g.right);
    Get16Put(g.code);
    Get16Put(g.number);
    var r := Record(g);
    GetInside(r, 0, 4, 0);
    GetInside(r, 4, 8, 0);
    GetInside(r, 8, 10, 0);
    GetInside(r, 10, 12, 0);
    GetInside(r, 12, 16, 0);
    assert r[0..4] == Put32(Signed(g.width)) && r[4..8] == Put32(Signed(g.left));
    assert r[8..10] == Put16(g.code) && r[10..12] == Put16(g.number) && r[12..16] == Put32(Signed(g.right));
  }

  // ------------------------------------------------------------ the font's header

  /** The header of a written font: the number of glyphs; and, unless the pages are to stay as
      the font counts them, the cells of a full page, the number of pages, the width and the height
      of the first and of the last, and the rows of a full page. The rest is as it was. */
  ghost predicate HeaderSays(was: Bytes, h: Bytes, count: nat, pages: seq<Page>, same: bool) {
    && |was| == |h| == 60 && pages != []
    && h[..16] == was[..16] && Get32(h, 16) == count && h[34..36] == was[34..36] && h[38..] == was[38..]
    && if same then h[20..] == was[20..]
      else
        && Get32(h, 20) == pages[0].height / 34 * 22
        && Get16(h, 24) == |pages|
        && Get16(h, 26) == 512 && Get16(h, 28) == pages[0].height
        && Get16(h, 30) == 512 && Get16(h, 32) == pages[|pages| - 1].height
        && Get16(h, 36) == pages[0].height / 34
  }

  lemma HeaderFields(header: Bytes, count: nat, pages: seq<Page>, same: bool)
    requires |header| == 60 && count < TWO_32 && PagesFit(pages)
    ensures HeaderSays(header, HeaderOf(header, count, pages, same), count, pages, same)
  {
    Get32Put(count);
    var counted := Counted(header, count);
    if same {
      GetInside(counted, 16, 20, 0);
      assert counted[34..36] == header[34..36] && counted[38..] == header[38..] && counted[20..] == header[20..];
    } else {
      PagedFields(header, count, pages);
    }
  }

  lemma PagedFields(header: Bytes, count: nat, pages: seq<Page>)
    requires |header| == 60 && count < TWO_32 && PagesFit(pages)
    ensures HeaderSays(header, HeaderOf(header, count, pages, false), count, pages, false)
  {
    hide Put32, Put16, Get32, Get16, Patch, PageFields, CellsOf;
    var cells, fields, rows := Put32(CellsOf(pages[0].height)), PageFields(pages), Put16(pages[0].height / CELL_H);
    var counted := Counted(header, count);
    var first := Patch(counted, 20, cells);
    var second := Patch(first, 24, fields);
    var h := Patch(second, 36, rows);
    PatchKeeps(second, 36, rows, 20, 24);
    PatchKeeps(first, 24, fields, 20, 24);
    PatchKeeps(second, 36, rows, 24, 34);
    PatchKeeps(second, 36, rows, 34, 36);
    KeptPast(header, Put32(count), cells, fields, 34, 36);
    KeptPast(header, Put32(count), cells, fields, 38, 60);
    PatchKeepsPast(second, 36, rows, 38, 60);
    HeaderCounts(header, count, pages, false);
    FieldsSay(header, h, count, pages);
  }

  lemma PatchKeepsPast(d: Bytes, at: nat, b: Bytes, begin: nat, end: nat)
    requires at + |b| <= begin <= end <= |d|
    ensures Patch(d, at, b)[begin..end] == d[begin..end]
  {
  }

  lemma KeptPast(header: Bytes, count: Bytes, cells: Bytes, fields: Bytes, begin: nat, end: nat)
    requires |header| == 60 && |count| == |cells| == 4 && |fields| == 10 && 34 <= begin <= end <= 60
    ensures Patch(Patch(Patch(header, 16, count), 20, cells), 24, fields)[begin..end] == header[begin..end]
  {
    hide Patch;
    var counted := Patch(header, 16, count);
    var first := Patch(counted, 20, cells);
    PatchKeepsPast(header, 16, count, begin, end);
    PatchKeepsPast(counted, 20, cells, begin, end);
    PatchKeepsPast(first, 24, fields, begin, end);
  }

  /** The fields, once their bytes are known. */
  lemma FieldsSay(header: Bytes, h: Bytes, count: nat, pages: seq<Page>)
    requires |header| == |h| == 60 && count < TWO_32 && PagesFit(pages)
    requires h[0..16] == header[0..16] && h[16..20] == Put32(count) && h[20..24] == Put32(CellsOf(pages[0].height))
    requires h[24..34] == PageFields(pages) && h[34..36] == header[34..36]
    requires h[36..38] == Put16(pages[0].height / CELL_H) && h[38..60] == header[38..60]
    ensures HeaderSays(header, h, count, pages, false)
  {
    hide Put32, Put16, Get32, Get16, PageFields;
    FieldsOfPages(pages);
    Get32Put(count);
    Get32Put(CellsOf(pages[0].height));
    Get16Put(pages[0].height / CELL_H);
    GetInside(h, 16, 20, 0);
    GetInside(h, 20, 24, 0);
    GetInside(h, 24, 34, 0);
    GetInside(h, 24, 34, 2);
    GetInside(h, 24, 34, 4);
    GetInside(h, 24, 34, 6);
    GetInside(h, 24, 34, 8);
    GetInside(h, 36, 38, 0);
  }

  lemma FieldsOfPages(pages: seq<Page>)
    requires PagesFit(pages)
    ensures var b := PageFields(pages);
      && Get16(b, 0) == |pages| && Get16(b, 2) == 512 && Get16(b, 4) == pages[0].height
      && Get16(b, 6) == 512 && Get16(b, 8) == pages[|pages| - 1].height
  {
  }

  /** What a written file holds there when it is read. */
  lemma WrittenHeader(font: Font, glyphs: seq<Glyph>, pages: seq<Page>, strings: seq<seq<nat>>, names: seq<Bytes>,
      same: bool, template: Bytes)
    requires Fits(font, glyphs, pages, strings, names, same, template)
    ensures var read := ReadFont(Packed(font.packHeader, Final(font, glyphs, pages, strings, names, same, template)));
      read.Some? && HeaderSays(font.header, read.value.header, |glyphs|, pages, same)
  {
    hide *;
    FitsParts(font, glyphs, pages, strings, names, same, template);
    PackRoundTrip(font, glyphs, pages, strings, names, same, template);
    HeaderFields(font.header, |glyphs|, pages, same);
  }

  // ------------------------------------------------------------ the texture

  /** The first page begins at a multiple of 64: at 64 when the names end before it, else between
      64 and 128 bytes past them. */
  lemma FirstPageAt(count: nat, names: seq<Bytes>)
    ensures var head := 4 + 8 * count + count + |Concat(NameParts(names))|;
      && FirstPage(count, names) % 64 == 0
      && (head <= 64 ==> FirstPage(count, names) == 64)
      && (head > 64 ==> head + 64 <= FirstPage(count, names) < head + 128)
  {
    hide Concat;
    var head := HeadSize(count, names);
    assert (head + 63) / 64 * 64 % 64 == 0;
  }

  /** The head of the texture: the number of pages, 1, where the first page is and its size, 0x11
      for each page. */
  lemma TextureHead(template: Bytes, pages: seq<Page>, names: seq<Bytes>)
    requires TextureFits(template, pages, names) && pages != []
    ensures var t, n := Texture(template, pages, names), |pages|;
      && |t| >= 4 + 9 * n && Get16(t, 0) == n && Get16(t, 2) == 1
      && (forall k | 0 <= k < n :: Get32(t, 4 + 4 * k) == PageOffsets(template, pages, names)[k])
      && (forall k | 0 <= k < n :: Get32(t, 4 + 4 * n + 4 * k) == 128 + 512 * pages[k].height * 4)
      && (forall i | 4 + 8 * n <= i < 4 + 9 * n :: t[i] == 0x11)
      && Get32(t, 4) == FirstPage(n, names)
  {
    hide Concat, Blobs, FirstPage, Put32s, NameParts, HeadSize, Put16, Get32, Get16, Start, Texture;
    TextureParts(template, pages, names);
    var t, n := Texture(template, pages, names), |pages|;
    var offsets, sizes := PageOffsets(template, pages, names), PageSizes(template, pages, names);
    Get16Put(n);
    Get16Put(1);
    GetInside(t, 0, 2, 0);
    GetInside(t, 2, 4, 0);
    Get32sInside(t, 4, offsets);
    Get32sInside(t, 4 + 4 * n, sizes);
    SizesAre(template, pages, names);
    assert forall k | 0 <= k < n :: Get32s(t, 4, n)[k] == Get32(t, 4 + 4 * k);
    assert forall k | 0 <= k < n :: Get32s(t, 4 + 4 * n, n)[k] == Get32(t, 4 + 4 * n + 4 * k);
    StartOfAll(Blobs(template, pages));
    assert Get32(t, 4 + 4 * 0) == offsets[0] == FirstPage(n, names) + Start(Blobs(template, pages), 0);
  }

  lemma TextureParts(template: Bytes, pages: seq<Page>, names: seq<Bytes>)
    requires TextureFits(template, pages, names)
    ensures var t, n := Texture(template, pages, names), |pages|;
      && |t| >= 4 + 9 * n && n < TWO_16 && t[0..2] == Put16(n) && t[2..4] == Put16(1)
      && t[4..4 + 4 * n] == Put32s(PageOffsets(template, pages, names))
      && t[4 + 4 * n..4 + 4 * n + 4 * n] == Put32s(PageSizes(template, pages, names))
      && (forall i | 4 + 8 * n <= i < 4 + 9 * n :: t[i] == 0x11)
  {
    hide Concat, Blobs, FirstPage, Put32s, NameParts, HeadSize, Put16, PageOffsets, PageSizes;
  }

  lemma SizesAre(template: Bytes, pages: seq<Page>, names: seq<Bytes>)
    requires TextureFits(template, pages, names)
    ensures forall k | 0 <= k < |pages| :: PageSizes(template, pages, names)[k] == 128 + 512 * pages[k].height * 4
  {
    hide Concat, FirstPage, Put32s;
  }

  /** A page: the template with this page's height and width, then its pixels. */
  lemma BlobFields(template: Bytes, page: Page)
    requires |template| == 128 && page.height < TWO_16
    ensures var b := Blob(template, page);
      && |b| == 128 + |page.pixels| && GetLittle(b, 12) == page.height && GetLittle(b, 16) == 512
      && b[..12] == template[..12] && b[20..128] == template[20..] && b[128..] == page.pixels
  {
    hide PutLittle, GetLittle;
    var b, size := Blob(template, page), PutLittle(page.height) + PutLittle(PAGE_W);
    var head := Patch(template, 12, size);
    Get32Put(page.height);
    Get32Put(PAGE_W);
    assert b[12..16] == head[12..20][..4] == PutLittle(page.height);
    assert b[16..20] == head[12..20][4..] == PutLittle(PAGE_W);
    GetInside(b, 12, 16, 0);
    GetInside(b, 16, 20, 0);
    assert b[20..128] == head[20..] && b[..12] == head[..12];
  }

  // ------------------------------------------------------------ the end of the file

  /** A file whose last entry is the string table is a multiple of sixteen bytes long. */
  lemma PaddedSize(font: Font, glyphs: seq<Glyph>, pages: seq<Page>, strings: seq<seq<nat>>, names: seq<Bytes>,
      same: bool, template: Bytes)
    requires font.fontAt + 3 == |font.entries| && PartsFit(font, glyphs, pages, strings, names, template)
    requires PackFits(font.packHeader, Final(font, glyphs, pages, strings, names, same, template))
    ensures |Packed(font.packHeader, Final(font, glyphs, pages, strings, names, same, template))| % 16 == 0
  {
    hide PartsFit, Rebuilt, Put32s, Offsets, Concat;
    var entries := Rebuilt(font, glyphs, pages, strings, names, same, template);
    var pad := PadOf(font, entries);
    LastLonger(entries, pad);
    var size := Base(font.packHeader, entries) + |Concat(entries)|;
    assert pad == -size % 16 && (size + pad) % 16 == 0;
  }

  lemma LastLonger(entries: seq<Bytes>, pad: nat)
    requires entries != []
    ensures |Concat(PaddedLast(entries, pad))| == |Concat(entries)| + pad
  {
    var last := |entries| - 1;
    assert PaddedLast(entries, pad)[..last] == entries[..last];
  }
}
