/** Reading back a written font pack gives what was written. */
module FontRoundTrip {
  import opened Options
  import opened FontBytes
  import opened FontPack

  // ------------------------------------------------------------ entries and their offsets

  /** Three pieces end to end, each found at its place. */
  lemma Pieces(a: Bytes, b: Bytes, c: Bytes)
    ensures (a + b + c)[..|a|] == a && (a + b + c)[|a|..|a| + |b|] == b && (a + b + c)[|a| + |b|..] == c
  {
  }

  lemma CountInHeader(header: Bytes, rest: Bytes, count: nat)
    requires PackCount(header) == Some((count, |header|))
    ensures PackCount(header + rest) == Some((count, |header|))
  {
    assert (header + rest)[..4] == header[..4];
  }

  /** The entries of a written pack are found where its offsets say. */
  lemma PackReads(header: Bytes, entries: seq<Bytes>)
    requires PackFits(header, entries) && PackCount(header) == Some((|entries|, |header|))
    ensures PackLayout(Packed(header, entries)).Some?
    ensures PackLayout(Packed(header, entries)).value.table == |header| <= |Packed(header, entries)|
    ensures |PackLayout(Packed(header, entries)).value.bounds| == |entries|
    ensures forall i | 0 <= i < |entries| :: EntryAt(header, entries, i)
    ensures Packed(header, entries)[..|header|] == header
  {
    hide PackCount, Get32s, Start, Put32s;
    var offsets, table := Offsets(header, entries), Put32s(Offsets(header, entries));
    var d := Packed(header, entries);
    Pieces(header, table, Concat(entries));
    assert d == header + (table + Concat(entries));
    CountInHeader(header, table + Concat(entries), |entries|);
    Get32sInside(d, |header|, offsets);
    forall i | 0 <= i < |entries| ensures EntryAt(header, entries, i) {
      EntryFound(header, entries, i);
    }
  }

  /** Entry i lies between its offsets. */
  ghost predicate EntryAt(header: Bytes, entries: seq<Bytes>, i: nat)
    requires PackFits(header, entries) && i < |entries|
  {
    var layout := PackLayout(Packed(header, entries));
    && layout.Some? && i < |layout.value.bounds|
    && layout.value.bounds[i] == (Base(header, entries) + Start(entries, i),
      Base(header, entries) + Start(entries, i + 1))
    && Inside(Packed(header, entries), layout.value.bounds[i].0, layout.value.bounds[i].1, entries[i])
  }

  ghost predicate Inside(d: Bytes, begin: nat, end: nat, part: Bytes) {
    begin <= end <= |d| && d[begin..end] == part
  }

  lemma EntryFound(header: Bytes, entries: seq<Bytes>, i: nat)
    requires PackFits(header, entries) && i < |entries|
    requires PackLayout(Packed(header, entries)).Some? && i < |PackLayout(Packed(header, entries)).value.bounds|
    requires PackLayout(Packed(header, entries)).value.bounds[i]
      == (Offsets(header, entries)[i], Offsets(header, entries)[i + 1])
    ensures EntryAt(header, entries, i)
  {
    hide PackLayout, Put32s;
    ConcatAt(entries, i);
    var table := header + Put32s(Offsets(header, entries));
    PartInside(table, Concat(entries), Start(entries, i), Start(entries, i + 1));
  }

  lemma PartInside(front: Bytes, back: Bytes, begin: nat, end: nat)
    requires begin <= end <= |back|
    ensures (front + back)[|front| + begin..|front| + end] == back[begin..end]
  {
  }

  // ------------------------------------------------------------ the glyphs

  lemma GlyphReads(g: Glyph)
    requires GlyphFits(g)
    ensures ReadGlyph(Record(g), 0) == g
  {
    hide Put32, Put16, Get32, Get16, GetSigned;
    GetSignedPut(g.width);
    GetSignedPut(g.left);
    GetSignedPut(g.right);
    var d := Record(g);
    assert d[0..4] == Put32(Signed(g.width)) && d[4..8] == Put32(Signed(g.left)) && d[8..10] == Put16(g.code);
    assert d[10..12] == Put16(g.number) && d[12..16] == Put32(Signed(g.right));
    GetInside(d, 0, 4, 0);
    GetInside(d, 4, 8, 0);
    GetInside(d, 8, 10, 0);
    GetInside(d, 10, 12, 0);
    GetInside(d, 12, 16, 0);
    Get16Put(g.code);
    Get16Put(g.number);
  }

  lemma GlyphInside(d: Bytes, begin: nat, end: nat, at: nat)
    requires begin <= end <= |d| && begin + at + 16 <= end
    ensures ReadGlyph(d, begin + at) == ReadGlyph(d[begin..end], at)
  {
    hide *;
    GetInside(d, begin, end, at);
    GetInside(d, begin, end, at + 4);
    GetInside(d, begin, end, at + 8);
    GetInside(d, begin, end, at + 10);
    GetInside(d, begin, end, at + 12);
    SameGlyph(d, begin + at, d[begin..end], at);
  }

  lemma SameGlyph(d: Bytes, at: nat, d': Bytes, at': nat)
    requires at + 16 <= |d| && at' + 16 <= |d'|
    requires GetSigned(d, at) == GetSigned(d', at') && GetSigned(d, at + 4) == GetSigned(d', at' + 4)
    requires Get16(d, at + 8) == Get16(d', at' + 8) && Get16(d, at + 10) == Get16(d', at' + 10)
    requires GetSigned(d, at + 12) == GetSigned(d', at' + 12)
    ensures ReadGlyph(d, at) == ReadGlyph(d', at')
  {
    hide GetSigned, Get16;
  }

  lemma RecordsSize(glyphs: seq<Glyph>)
    requires forall k | 0 <= k < |glyphs| :: GlyphFits(glyphs[k])
    ensures |Concat(Records(glyphs))| == 16 * |glyphs|
  {
    StartOfEven(Records(glyphs), 16, |glyphs|);
    StartOfAll(Records(glyphs));
  }

  /** A glyph among the records, wherever they are. */
  lemma GlyphAmong(d: Bytes, begin: nat, glyphs: seq<Glyph>, k: nat)
    requires (forall k | 0 <= k < |glyphs| :: GlyphFits(glyphs[k])) && k < |glyphs|
    requires Inside(d, begin, begin + 16 * |glyphs|, Concat(Records(glyphs)))
    ensures begin + 16 * k + 16 <= |d| && ReadGlyph(d, begin + 16 * k) == glyphs[k]
  {
    hide ReadGlyph, Record, GlyphFits;
    var records := Records(glyphs);
    StartOfEven(records, 16, k);
    StartOfEven(records, 16, k + 1);
    ConcatAt(records, k);
    GlyphInside(d, begin, begin + 16 * |glyphs|, 16 * k);
    GlyphInside(Concat(records), 16 * k, 16 * k + 16, 0);
    GlyphReads(glyphs[k]);
  }

  lemma FontDataParts(d: Bytes, begin: nat, end: nat, header: Bytes, records: Bytes, trailer: Bytes)
    requires Inside(d, begin, end, header + records + trailer)
    ensures Inside(d, begin, begin + |header|, header)
    ensures Inside(d, begin + |header|, begin + |header| + |records|, records)
    ensures Inside(d, begin + |header| + |records|, end, trailer)
  {
    Pieces(header, records, trailer);
    Nested(d, begin, end, header + records + trailer, 0, |header|);
    Nested(d, begin, end, header + records + trailer, |header|, |header| + |records|);
    Nested(d, begin, end, header + records + trailer, |header| + |records|, end - begin);
  }

  lemma GlyphsRead(d: Bytes, begin: nat, glyphs: seq<Glyph>)
    requires forall k | 0 <= k < |glyphs| :: GlyphFits(glyphs[k])
    requires Inside(d, begin, begin + 16 * |glyphs|, Concat(Records(glyphs)))
    ensures ReadGlyphs(d, begin, |glyphs|) == glyphs
  {
    hide Records, ReadGlyph, GlyphFits;
    forall k | 0 <= k < |glyphs| ensures begin + 16 * k + 16 <= |d| && ReadGlyph(d, begin + 16 * k) == glyphs[k] {
      GlyphAmong(d, begin, glyphs, k);
    }
  }

  lemma CountReads(d: Bytes, begin: nat, header: Bytes, count: nat)
    requires |header| == 60 && count < TWO_32 && header[16..20] == Put32(count) && Inside(d, begin, begin + 60, header)
    ensures Get32(d, begin + 16) == count
  {
    hide Get32, Put32;
    GetInside(d, begin, begin + 60, 16);
    GetInside(header, 16, 20, 0);
    Get32Put(count);
  }

  /** The font entry gives back its count, header, glyphs and trailer. */
  lemma FontDataReads(d: Bytes, begin: nat, end: nat, header: Bytes, glyphs: seq<Glyph>, trailer: Bytes)
    requires (forall k | 0 <= k < |glyphs| :: GlyphFits(glyphs[k])) && |glyphs| < TWO_32
    requires |header| == 60 && header[16..20] == Put32(|glyphs|)
    requires Inside(d, begin, end, FontData(header, glyphs, trailer))
    ensures begin + 60 + 16 * |glyphs| <= end <= |d|
    ensures Get32(d, begin + 16) == |glyphs| && Slice(d, begin, begin + 60) == header
    ensures ReadGlyphs(d, begin + 60, |glyphs|) == glyphs
    ensures Slice(d, begin + 60 + 16 * |glyphs|, end) == trailer
  {
    hide Get32, Put32, Records, ReadGlyphs, GlyphFits;
    RecordsSize(glyphs);
    FontDataParts(d, begin, end, header, Concat(Records(glyphs)), trailer);
    CountReads(d, begin, header, |glyphs|);
    GlyphsRead(d, begin + 60, glyphs);
  }

  lemma Nested(d: Bytes, begin: nat, end: nat, part: Bytes, from: nat, till: nat)
    requires Inside(d, begin, end, part) && from <= till <= |part|
    ensures Inside(d, begin + from, begin + till, part[from..till])
  {
    var some, there := part[from..till], d[begin + from..begin + till];
    assert |some| == |there|;
    forall k | 0 <= k < |some| ensures some[k] == there[k] {
      assert some[k] == part[from + k] == d[begin + (from + k)];
    }
  }

  // ------------------------------------------------------------ the strings

  lemma BodySize(values: seq<nat>)
    ensures |Body(values)| == 4 * |values| + 4
  {
    StartOfEven(Marks(values), 4, |values| + 1);
    StartOfAll(Marks(values));
  }

  lemma MarkReads(values: seq<nat>, i: nat)
    requires i <= |values| && forall k | 0 <= k < |values| :: values[k] < TWO_32
    ensures Get32(Mark(values, i), 0) == if i < |values| then values[i] else END
  {
    hide Get32, Put32;
    Get32Put((if i < |values| then values[i] else END) % TWO_32);
  }

  lemma MarkInside(values: seq<nat>, i: nat)
    requires i <= |values|
    ensures Inside(Body(values), 4 * i, 4 * i + 4, Mark(values, i))
  {
    hide Put32, Mark, Concat;
    StartOfEven(Marks(values), 4, i);
    StartOfEven(Marks(values), 4, i + 1);
    ConcatAt(Marks(values), i);
  }

  lemma ValueAt(d: Bytes, begin: nat, values: seq<nat>, i: nat)
    requires Inside(d, begin, begin + 4 * |values| + 4, Body(values)) && i <= |values|
    requires forall k | 0 <= k < |values| :: values[k] < TWO_32
    ensures begin + 4 * i + 4 <= |d| && Get32(d, begin + 4 * i) == if i < |values| then values[i] else END
  {
    hide *;
    MarkInside(values, i);
    MarkReads(values, i);
    InsideSize(Body(values), 4 * i, 4 * i + 4, Mark(values, i));
    InsideSize(d, begin, begin + 4 * |values| + 4, Body(values));
    GetInside(d, begin, begin + 4 * |values| + 4, 4 * i);
    GetInside(Body(values), 4 * i, 4 * i + 4, 0);
  }

  lemma {:induction false} StringReads(d: Bytes, begin: nat, end: nat, values: seq<nat>, i: nat)
    requires Inside(d, begin, begin + 4 * |values| + 4, Body(values)) && begin + 4 * |values| + 4 <= end
      && i <= |values|
    requires forall k | 0 <= k < |values| :: values[k] < TWO_32 && values[k] != END
    ensures ReadString(d, begin + 4 * i, end) == Some(values[i..])
    decreases |values| - i
  {
    hide Body, Get32;
    ValueAt(d, begin, values, i);
    if i < |values| {
      StringReads(d, begin, end, values, i + 1);
      assert [values[i]] + values[i + 1..] == values[i..];
    } else {
      assert values[i..] == [];
    }
  }

  lemma {:induction false} EachReads(d: Bytes, begin: nat, end: nat, offsets: seq<nat>, strings: seq<seq<nat>>)
    requires |offsets| == |strings|
    requires forall k | 0 <= k < |strings| :: ReadString(d, begin + offsets[k], end) == Some(strings[k])
    ensures ReadEach(d, begin, end, offsets) == Some(strings)
    decreases |offsets|
  {
    if offsets != [] {
      var last := |offsets| - 1;
      EachReads(d, begin, end, offsets[..last], strings[..last]);
      assert strings == strings[..last] + [strings[last]];
    }
  }

  lemma StringTableParts(header: Bytes, strings: seq<seq<nat>>, rest: Bytes)
    requires StringsFit(strings) && |header| == 8
    ensures var t, n := StringTable(header, strings) + rest, |strings|;
      && 20 + 4 * n + |Concat(Bodies(strings))| + |rest| == |t|
      && t[0..8] == FONTSTLB && t[8..16] == header && t[16..20] == Put32(n)
      && t[20..20 + 4 * n] == Put32s(StringOffsets(strings))
        && t[20 + 4 * n..20 + 4 * n + |Concat(Bodies(strings))|] == Concat(Bodies(strings))
  {
    hide Put32, Put32s, Concat, Bodies, StringOffsets;
  }

  lemma StringTablePlaces(d: Bytes, begin: nat, end: nat, header: Bytes, strings: seq<seq<nat>>, rest: Bytes)
    requires StringsFit(strings) && |header| == 8 && Inside(d, begin, end, StringTable(header, strings) + rest)
    ensures var n, bodies := |strings|, Concat(Bodies(strings));
      && begin + 20 + 4 * n + |bodies| <= end
      && Inside(d, begin, begin + 8, FONTSTLB) && Inside(d, begin + 8, begin + 16, header)
        && Inside(d, begin + 16, begin + 20, Put32(n))
      && Inside(d, begin + 20, begin + 20 + 4 * n, Put32s(StringOffsets(strings)))
      && Inside(d, begin + 20 + 4 * n, begin + 20 + 4 * n + |bodies|, bodies)
  {
    hide Put32, Put32s, Body, StringTable, Concat, Bodies, StringsFit, Inside, StringOffsets;
    var t, n := StringTable(header, strings) + rest, |strings|;
    StringTableParts(header, strings, rest);
    InsideSize(d, begin, end, t);
    Nested(d, begin, end, t, 0, 8);
    Nested(d, begin, end, t, 8, 16);
    Nested(d, begin, end, t, 16, 20);
    Nested(d, begin, end, t, 20, 20 + 4 * n);
    Nested(d, begin, end, t, 20 + 4 * n, 20 + 4 * n + |Concat(Bodies(strings))|);
  }

  lemma InsideSize(d: Bytes, begin: nat, end: nat, part: Bytes)
    requires Inside(d, begin, end, part)
    ensures begin <= end <= |d| && |part| == end - begin && d[begin..end] == part && Slice(d, begin, end) == part
  {
  }

  lemma StringAt(d: Bytes, begin: nat, end: nat, strings: seq<seq<nat>>, k: nat)
    requires StringsFit(strings) && k < |strings| && begin + |Concat(Bodies(strings))| <= end
    requires Inside(d, begin, begin + |Concat(Bodies(strings))|, Concat(Bodies(strings)))
    ensures ReadString(d, begin + Start(Bodies(strings), k), end) == Some(strings[k])
    ensures Start(Bodies(strings), k) < |Concat(Bodies(strings))|
  {
    hide Body, ReadString, Inside;
    var bodies := Bodies(strings);
    ConcatAt(bodies, k);
    BodySize(strings[k]);
    Nested(d, begin, begin + |Concat(bodies)|, Concat(bodies), Start(bodies, k), Start(bodies, k + 1));
    StringReads(d, begin + Start(bodies, k), end, strings[k], 0);
    assert strings[k][0..] == strings[k];
  }

  lemma StringsOfIs(d: Bytes, begin: nat, end: nat, offsets: seq<nat>)
    requires begin + 20 + 4 * |offsets| <= |d| && Get32(d, begin + 16) == |offsets|
    requires Get32s(d, begin + 20, |offsets|) == offsets
    ensures StringsOf(d, begin, end) == ReadEach(d, begin, end, offsets)
  {
  }

  lemma OffsetOfString(strings: seq<seq<nat>>, k: nat)
    requires StringsFit(strings) && k < |strings|
    ensures |Bodies(strings)| == |StringOffsets(strings)| == |strings| < TWO_32
    ensures StringOffsets(strings)[k] == 20 + 4 * |strings| + Start(Bodies(strings), k)
    ensures forall k | 0 <= k < |StringOffsets(strings)| :: StringOffsets(strings)[k] < TWO_32
  {
    hide Body;
  }

  lemma CountOfStrings(strings: seq<seq<nat>>)
    requires StringsFit(strings)
    ensures |strings| < TWO_32 && |StringOffsets(strings)| == |strings|
    ensures forall k | 0 <= k < |StringOffsets(strings)| :: StringOffsets(strings)[k] < TWO_32
  {
    hide Body;
  }

  /** The string chunk gives back its strings, and every offset in it is inside it. */
  lemma StringTableReads(d: Bytes, begin: nat, end: nat, header: Bytes, strings: seq<seq<nat>>, rest: Bytes)
    requires StringsFit(strings) && |header| == 8 && Inside(d, begin, end, StringTable(header, strings) + rest)
    ensures StringsOf(d, begin, end) == Some(strings) && Inside(d, begin, begin + 8, FONTSTLB)
      && Slice(d, begin + 8, begin + 16) == header
    ensures forall k | 0 <= k < |strings| ::
      20 + 4 * |strings| <= StringOffsets(strings)[k] < 20 + 4 * |strings| + |Concat(Bodies(strings))|
  {
    hide *;
    var n := |strings|;
    CountOfStrings(strings);
    var offsets := StringOffsets(strings);
    StringTablePlaces(d, begin, end, header, strings, rest);
    InsideSize(d, begin + 8, begin + 16, header);
    InsideSize(d, begin + 16, begin + 20, Put32(n));
    InsideSize(d, begin + 20, begin + 20 + 4 * n, Put32s(offsets));
    GetInside(d, begin + 16, begin + 20, 0);
    Get32Put(n);
    Get32sInside(d, begin + 20, offsets);
    forall k | 0 <= k < n
      ensures ReadString(d, begin + offsets[k], end) == Some(strings[k])
      ensures 20 + 4 * n <= offsets[k] < 20 + 4 * n + |Concat(Bodies(strings))|
    {
      OffsetOfString(strings, k);
      StringAt(d, begin + 20 + 4 * n, end, strings, k);
    }
    EachReads(d, begin, end, offsets, strings);
    StringsOfIs(d, begin, end, offsets);
  }

  // ------------------------------------------------------------ the names

  predicate NoZero(name: Bytes) {
    forall i | 0 <= i < |name| :: name[i] != 0
  }

  lemma {:induction false} SplitName(name: Bytes, rest: Bytes)
    requires NoZero(name)
    ensures Split(name + [0] + rest) == [name] + Split(rest)
    decreases |name|
  {
    var d := name + [0] + rest;
    if name == [] {
      assert d == [0] + rest && d[1..] == rest;
    } else {
      assert d[1..] == name[1..] + [0] + rest;
      SplitName(name[1..], rest);
      assert [name[0]] + name[1..] == name;
      assert Split(d) == [[d[0]] + Split(d[1..])[0]] + Split(d[1..])[1..];
    }
  }

  /** The pieces before the last zero byte are the names. */
  lemma {:induction false} SplitNames(names: seq<Bytes>, rest: Bytes)
    requires forall k | 0 <= k < |names| :: NoZero(names[k])
    ensures Split(Concat(NameParts(names)) + rest) == names + Split(rest)
    decreases |names|
  {
    hide Split, NoZero, NameParts;
    if names == [] {
      NoNames();
      assert Concat(NameParts(names)) + rest == rest;
      assert names + Split(rest) == Split(rest);
    } else {
      var front, last := names[..|names| - 1], names[|names| - 1];
      NamePartsLast(front, last);
      assert names == front + [last];
      ConcatOne(NameParts(front), last + [0]);
      Regroup(Concat(NameParts(front)), last, rest);
      SplitNames(front, last + [0] + rest);
      SplitName(last, rest);
      RegroupPieces(front, last, Split(rest));
    }
  }

  lemma NoNames()
    ensures Concat(NameParts([])) == []
  {
  }

  lemma NamePartsLast(front: seq<Bytes>, last: Bytes)
    ensures NameParts(front + [last]) == NameParts(front) + [last + [0]]
  {
  }

  lemma Regroup(front: Bytes, last: Bytes, rest: Bytes)
    ensures front + (last + [0]) + rest == front + (last + [0] + rest)
  {
  }

  lemma RegroupPieces(front: seq<Bytes>, last: Bytes, rest: seq<Bytes>)
    ensures front + ([last] + rest) == front + [last] + rest
  {
  }

  // ------------------------------------------------------------ the pages

  predicate TemplateFits(template: Bytes) {
    |template| == 128 && template[..4] == DDS
  }

  lemma BlobReads(name: Bytes, template: Bytes, page: Page)
    requires TemplateFits(template) && page.height < TWO_16 && |page.pixels| == PixelBytes(page.height)
    ensures ReadPage(name, Blob(template, page)) == Some(PageRead(name, page, Blob(template, page)[..128]))
  {
    hide PutLittle, GetLittle, PixelBytes;
    var size, width := PutLittle(page.height), PutLittle(PAGE_W);
    var patched := Patch(template, 12, size + width);
    var dds := Blob(template, page);
    assert patched[..4] == template[..12][..4] == template[..4];
    assert dds[..128] == patched && dds[12..16] == size && dds[16..20] == width && dds[..4] == patched[..4];
    GetInside(dds, 12, 16, 0);
    GetInside(dds, 16, 20, 0);
    Get32Put(page.height);
    Get32Put(PAGE_W);
    assert dds[128..|dds|] == page.pixels;
    SliceIs(dds, 128, |dds|);
    SliceIs(dds, 0, 128);
    ReadPageIs(name, dds);
  }

  lemma ReadPageIs(name: Bytes, dds: Bytes)
    requires |dds| >= 20 && dds[..4] == DDS && GetLittle(dds, 16) == PAGE_W
    ensures ReadPage(name, dds) ==
      Some(PageRead(name, Page(GetLittle(dds, 12), Slice(dds, 128, 128 + PixelBytes(GetLittle(dds, 12)))),
        Slice(dds, 0, 128)))
  {
    hide GetLittle, Slice;
  }

  /** A page as it was written: its name, height and pixels, and the front its blob was given. */
  ghost predicate PageBack(read: PageRead, name: Bytes, page: Page, template: Bytes) {
    read.name == name && read.page == page && |template| == 128 && page.height < TWO_16
      && read.template == Blob(template, page)[..128]
  }

  lemma {:induction false} PagesBack(t: Bytes, pieces: seq<Bytes>, offsets: seq<nat>, sizes: seq<nat>, template: Bytes,
      pages: seq<Page>, k: nat)
    requires k <= |pages| <= |pieces| && |offsets| == |sizes| == |pages| && TemplateFits(template) && PagesFit(pages)
    requires forall i | 0 <= i < |pages| :: Inside(t, offsets[i], offsets[i] + sizes[i], Blob(template, pages[i]))
    ensures ReadPages(t, pieces, offsets, sizes, k).Some? && |ReadPages(t, pieces, offsets, sizes, k).value| == k
    ensures forall i | 0 <= i < k ::
      PageBack(ReadPages(t, pieces, offsets, sizes, k).value[i], pieces[i], pages[i], template)
  {
    hide Blob, ReadPage, Inside, PixelBytes, Slice;
    if k > 0 {
      PagesBack(t, pieces, offsets, sizes, template, pages, k - 1);
      InsideSize(t, offsets[k - 1], offsets[k - 1] + sizes[k - 1], Blob(template, pages[k - 1]));
      BlobReads(pieces[k - 1], template, pages[k - 1]);
    }
  }

  /** The pieces of a texture, each at its place. */
  lemma TextureParts(template: Bytes, pages: seq<Page>, names: seq<Bytes>)
    requires TextureFits(template, pages, names)
    ensures var t, n, first := Texture(template, pages, names), |pages|, FirstPage(|pages|, names);
      var named := |Concat(NameParts(names))|;
      && |t| == first + |Concat(Blobs(template, pages))| && first >= 4 + 9 * n + named
      && t[0..2] == Put16(n) && t[4..4 + 4 * n] == Put32s(PageOffsets(template, pages, names))
      && t[4 + 4 * n..4 + 4 * n + 4 * n] == Put32s(PageSizes(template, pages, names))
      && t[4 + 9 * n..first] == Concat(NameParts(names)) + Zeros(first - (4 + 9 * n + named))
      && t[first..] == Concat(Blobs(template, pages))
  {
    hide Put16, Put32s, Concat, NameParts, Blobs, PageOffsets, PageSizes, FirstPage, PagesFit;
  }

  /** The glyph pages come back, with their names, and every offset is inside the texture. */
  lemma TextureReads(template: Bytes, pages: seq<Page>, names: seq<Bytes>)
    requires TextureFits(template, pages, names) && TemplateFits(template)
    requires forall k | 0 <= k < |names| :: NoZero(names[k])
    ensures var read := Pages(Texture(template, pages, names));
      read.Some? && |read.value| == |pages| && forall k | 0 <= k < |pages| ::
        PageBack(read.value[k], names[k], pages[k], template)
    ensures forall k | 0 <= k < |pages| ::
      PageOffsets(template, pages, names)[k] + PageSizes(template, pages, names)[k] <= |Texture(template, pages, names)|
  {
    hide *;
    var t, n, first := Texture(template, pages, names), |pages|, FirstPage(|pages|, names);
    var offsets, sizes := PageOffsets(template, pages, names), PageSizes(template, pages, names);
    TextureParts(template, pages, names);
    PageCount(template, pages, names);
    GetInside(t, 0, 2, 0);
    Get16Put(n);
    Get32sInside(t, 4, offsets);
    Get32sInside(t, 4 + 4 * n, sizes);
    var padding := Zeros(first - (4 + 9 * n + |Concat(NameParts(names))|));
    SplitNames(names, padding);
    forall k | 0 <= k < n ensures Inside(t, offsets[k], offsets[k] + sizes[k], Blob(template, pages[k]))
      && offsets[k] + sizes[k] <= |t| {
      BlobInside(t, template, pages, names, k);
    }
    var pieces := names + Split(padding);
    PagesBack(t, pieces, offsets, sizes, template, pages, n);
    SliceIs(t, 4 + 9 * n, first);
    PagesAre(t, n, offsets, sizes, pieces, first);
  }

  lemma PageCount(template: Bytes, pages: seq<Page>, names: seq<Bytes>)
    requires TextureFits(template, pages, names)
    ensures 0 < |pages| == |names| < TWO_16 && PagesFit(pages) && |template| == 128
    ensures forall k | 0 <= k < |pages| :: pages[k].height < TWO_16
    ensures |PageOffsets(template, pages, names)| == |PageSizes(template, pages, names)| == |pages|
    ensures (forall k | 0 <= k < |pages| ::
      PageOffsets(template, pages, names)[k] < TWO_32 && PageSizes(template, pages, names)[k] < TWO_32)
    ensures PageOffsets(template, pages, names)[0] == FirstPage(|pages|, names)
  {
    hide Blob;
    StartOfAll(Blobs(template, pages));
  }

  lemma BlobInside(t: Bytes, template: Bytes, pages: seq<Page>, names: seq<Bytes>, k: nat)
    requires TextureFits(template, pages, names) && k < |pages|
    requires |t| == FirstPage(|pages|, names) + |Concat(Blobs(template, pages))|
    requires t[FirstPage(|pages|, names)..] == Concat(Blobs(template, pages))
    ensures var offset, size := PageOffsets(template, pages, names)[k], PageSizes(template, pages, names)[k];
      Inside(t, offset, offset + size, Blob(template, pages[k])) && offset + size <= |t|
  {
    hide Blob, FirstPage;
    var blobs := Blobs(template, pages);
    var first := FirstPage(|pages|, names);
    ConcatAt(blobs, k);
    PartInside(t[..first], t[first..], Start(blobs, k), Start(blobs, k + 1));
    assert t[..first] + t[first..] == t;
  }

  lemma PagesAre(t: Bytes, n: nat, offsets: seq<nat>, sizes: seq<nat>, pieces: seq<Bytes>, first: nat)
    requires |t| >= 4 + 8 * n && n > 0 && Get16(t, 0) == n && |offsets| == |sizes| == n <= |pieces|
    requires Get32s(t, 4, n) == offsets && Get32s(t, 4 + 4 * n, n) == sizes && offsets[0] == first
    requires Split(Slice(t, 4 + 9 * n, first)) == pieces
    ensures Pages(t) == ReadPages(t, pieces, offsets, sizes, n)
  {
    hide Get32s, Get16, Split, Slice, ReadPages;
  }

  // ------------------------------------------------------------ the tags

  /** No entry before the font's shows its tag, even read on into the next entries. */
  predicate FirstTagged(font: Font) {
    && font.fontAt + 3 <= |font.entries|
    && forall i | 0 <= i < font.fontAt :: TagOf(font.entries[..font.fontAt], i) != FONTDATF
  }

  function TagOf(before: seq<Bytes>, i: nat): Bytes
    requires i < |before|
  {
    Slice(Concat(before) + FONTDATF, Start(before, i), Start(before, i) + 8)
  }

  lemma StartOfPrefix(entries: seq<Bytes>, at: nat, i: nat)
    requires i <= at <= |entries|
    ensures Start(entries, i) == Start(entries[..at], i) <= |Concat(entries[..at])|
  {
    assert entries[..at][..i] == entries[..i];
    StartsBelow(entries[..at]);
  }

  lemma ConcatAround(entries: seq<Bytes>, at: nat)
    requires at < |entries|
    ensures Concat(entries) == Concat(entries[..at]) + (entries[at] + Concat(entries[at + 1..]))
  {
    hide Concat;
    var before, entry, rest := entries[..at], entries[at], entries[at + 1..];
    ConcatTwo(before, [entry] + rest);
    ConcatTwo([entry], rest);
    ConcatAlone(entry);
    assert entries == before + ([entry] + rest);
    assert Concat(entries) == Concat(before) + (Concat([entry]) + Concat(rest));
  }

  lemma ConcatAlone(entry: Bytes)
    ensures Concat([entry]) == entry
  {
    ConcatOne([], entry);
    assert [] + [entry] == [entry];
    assert [] + entry == entry;
  }

  /** An earlier tag is what it was. */
  lemma EarlierTag(front: Bytes, entries: seq<Bytes>, at: nat, i: nat)
    requires i < at < |entries| && |entries[at]| >= 8 && entries[at][..8] == FONTDATF
    ensures Tag(front + Concat(entries), |front| + Start(entries, i)) == TagOf(entries[..at], i)
  {
    hide Start, Concat, Slice, FONTDATF;
    StartOfPrefix(entries, at, i);
    ConcatAround(entries, at);
    var tail := entries[at] + Concat(entries[at + 1..]);
    assert tail[..8] == entries[at][..8];
    SameWindow(front, Concat(entries[..at]), tail, Start(entries, i));
  }

  lemma SameWindow(front: Bytes, before: Bytes, tail: Bytes, s: nat)
    requires s <= |before| && |tail| >= 8 && tail[..8] == FONTDATF
    ensures Slice(front + (before + tail), |front| + s, |front| + s + 8) == Slice(before + FONTDATF, s, s + 8)
  {
    var x, y := Slice(front + (before + tail), |front| + s, |front| + s + 8), Slice(before + FONTDATF, s, s + 8);
    assert |x| == |y| == 8;
    forall k | 0 <= k < 8 ensures x[k] == y[k] {
      if s + k >= |before| {
        assert tail[..8][s + k - |before|] == FONTDATF[s + k - |before|];
      }
    }
  }

  lemma {:induction false} FirstIs(d: Bytes, bounds: seq<(nat, nat)>, at: nat, i: nat)
    requires i <= at < |bounds| && Tag(d, bounds[at].0) == FONTDATF
    requires forall k | i <= k < at :: Tag(d, bounds[k].0) != FONTDATF
    ensures FirstFont(d, bounds, i) == at
    decreases at - i
  {
    hide Tag;
    if i < at {
      FirstIs(d, bounds, at, i + 1);
    }
  }

  // ------------------------------------------------------------ the whole file

  /** What serialize demands, and that the font's own header, tags and strings header are whole. */
  predicate Fits(font: Font, glyphs: seq<Glyph>, pages: seq<Page>, strings: seq<seq<nat>>, names: seq<Bytes>,
      same: bool, template: Bytes) {
    && FirstTagged(font) && PartsFit(font, glyphs, pages, strings, names, template)
    && font.header[..8] == FONTDATF && |font.stringsHeader| == 8 && TemplateFits(template)
    && (forall k | 0 <= k < |names| :: NoZero(names[k]))
    && PackCount(font.packHeader) == Some((|font.entries|, |font.packHeader|))
    && PackFits(font.packHeader, Final(font, glyphs, pages, strings, names, same, template))
  }

  lemma FinalParts(font: Font, glyphs: seq<Glyph>, pages: seq<Page>, strings: seq<seq<nat>>, names: seq<Bytes>,
      same: bool, template: Bytes)
    requires Fits(font, glyphs, pages, strings, names, same, template)
    ensures PagesFit(pages)
    ensures var entries, at := Final(font, glyphs, pages, strings, names, same, template), font.fontAt;
      && |entries| == |font.entries| && at + 3 <= |entries|
      && (forall i | 0 <= i < |entries| && !(at <= i < at + 3) :: entries[i] == font.entries[i])
      && entries[..at] == font.entries[..at]
      && entries[at] == FontData(HeaderOf(font.header, |glyphs|, pages, same), glyphs, font.trailer)
      && entries[at + 1] == Texture(template, pages, names)
      && exists pad: nat :: entries[at + 2] == StringTable(font.stringsHeader, strings) + Zeros(pad)
  {
    hide FontData, Texture, StringTable, HeaderOf, StringsFit, GlyphFits, Concat, TagOf, TemplateFits, NoZero, Zeros,
      FirstPage, PackFits, PackCount, PadOf;
    HeaderFits(template, pages, names);
    var rebuilt := Rebuilt(font, glyphs, pages, strings, names, same, template);
    var pad, at := PadOf(font, rebuilt), font.fontAt;
    NoPadding(font, rebuilt);
    if at + 3 == |rebuilt| {
      assert Final(font, glyphs, pages, strings, names, same, template)[at + 2]
        == StringTable(font.stringsHeader, strings) + Zeros(pad);
    } else {
      AddNothing(StringTable(font.stringsHeader, strings));
      AddNothing(rebuilt[|rebuilt| - 1]);
      assert Final(font, glyphs, pages, strings, names, same, template)[at + 2]
        == StringTable(font.stringsHeader, strings) + Zeros(0);
    }
  }

  lemma NoPadding(font: Font, entries: seq<Bytes>)
    ensures font.fontAt + 3 != |entries| ==> PadOf(font, entries) == 0
  {
  }

  lemma AddNothing(d: Bytes)
    ensures d + Zeros(0) == d
  {
  }

  /** The three font entries of a written file, and the tags before them. */
  lemma WrittenTags(font: Font, entries: seq<Bytes>, header: Bytes, glyphs: seq<Glyph>, d: Bytes,
      bounds: seq<(nat, nat)>)
    requires FirstTagged(font) && |entries| == |font.entries| && entries[..font.fontAt] == font.entries[..font.fontAt]
    requires |header| == 60 && header[..8] == FONTDATF && (forall k | 0 <= k < |glyphs| :: GlyphFits(glyphs[k]))
    requires entries[font.fontAt] == FontData(header, glyphs, font.trailer)
    requires PackFits(font.packHeader, entries) && d == Packed(font.packHeader, entries) && |bounds| == |entries|
    requires forall i | 0 <= i < |entries| :: bounds[i].0 == Base(font.packHeader, entries) + Start(entries, i)
    requires Inside(d, bounds[font.fontAt].0, bounds[font.fontAt].1, entries[font.fontAt])
    ensures FirstFont(d, bounds, 0) == font.fontAt
  {
    hide Start, Put32s, Concat, Records, GlyphFits, Base;
    var at := font.fontAt;
    var front := font.packHeader + Put32s(Offsets(font.packHeader, entries));
    FrontSize(font.packHeader, entries);
    assert entries[at][..8] == FONTDATF;
    forall i | 0 <= i < at ensures Tag(d, bounds[i].0) != FONTDATF {
      EarlierTag(front, entries, at, i);
    }
    InsideSize(d, bounds[at].0, bounds[at].1, entries[at]);
    SliceIs(d, bounds[at].0, bounds[at].0 + 8);
    assert d[bounds[at].0..bounds[at].0 + 8] == entries[at][..8];
    FirstIs(d, bounds, at, 0);
  }

  lemma FrontSize(header: Bytes, entries: seq<Bytes>)
    requires PackFits(header, entries)
    ensures |header + Put32s(Offsets(header, entries))| == Base(header, entries)
  {
    hide Concat;
  }

  /** Reading back what serialize writes gives the same glyphs, strings, pages and names, and
      every other entry as it was. */
  lemma PackRoundTrip(font: Font, glyphs: seq<Glyph>, pages: seq<Page>, strings: seq<seq<nat>>, names: seq<Bytes>,
      same: bool, template: Bytes)
    requires Fits(font, glyphs, pages, strings, names, same, template)
    ensures var read := ReadFont(Packed(font.packHeader, Final(font, glyphs, pages, strings, names, same, template)));
      && read.Some? && read.value.glyphs == glyphs && read.value.strings == strings
      && read.value.packHeader == font.packHeader && read.value.fontAt == font.fontAt
      && read.value.trailer == font.trailer && read.value.stringsHeader == font.stringsHeader
      && PagesFit(pages) && read.value.header == HeaderOf(font.header, |glyphs|, pages, same)
      && |read.value.entries| == |font.entries|
      && (forall i | 0 <= i < |font.entries| && !(font.fontAt <= i < font.fontAt + 3) ::
        read.value.entries[i] == font.entries[i])
      && Pages(read.value.texture).Some? && |Pages(read.value.texture).value| == |pages|
      && forall k | 0 <= k < |pages| :: PageBack(Pages(read.value.texture).value[k], names[k], pages[k], template)
  {
    hide *;
    FitsParts(font, glyphs, pages, strings, names, same, template);
    var entries, at := Final(font, glyphs, pages, strings, names, same, template), font.fontAt;
    FinalParts(font, glyphs, pages, strings, names, same, template);
    var pad: nat :| entries[at + 2] == StringTable(font.stringsHeader, strings) + Zeros(pad);
    var header := HeaderOf(font.header, |glyphs|, pages, same);
    HeaderCounts(font.header, |glyphs|, pages, same);
    var d := Packed(font.packHeader, entries);
    PackReads(font.packHeader, entries);
    var bounds := PackLayout(d).value.bounds;
    forall i | 0 <= i < |entries|
      ensures bounds[i].0 == Base(font.packHeader, entries) + Start(entries, i)
        && Inside(d, bounds[i].0, bounds[i].1, entries[i])
      ensures Slice(d, bounds[i].0, bounds[i].1) == entries[i]
    {
      EntryParts(font.packHeader, entries, i);
      InsideSize(d, bounds[i].0, bounds[i].1, entries[i]);
    }
    assert header[..8] == header[0..16][..8] == font.header[0..16][..8] == font.header[..8];
    WrittenTags(font, entries, header, glyphs, d, bounds);
    FontDataReads(d, bounds[at].0, bounds[at].1, header, glyphs, font.trailer);
    StringTableReads(d, bounds[at + 2].0, bounds[at + 2].1, font.stringsHeader, strings, Zeros(pad));
    TagIs(d, bounds[at + 2].0, FONTSTLB);
    TextureReads(template, pages, names);
    ReadFontIs(d, at, |glyphs|, strings);
  }

  lemma FitsParts(font: Font, glyphs: seq<Glyph>, pages: seq<Page>, strings: seq<seq<nat>>, names: seq<Bytes>,
      same: bool, template: Bytes)
    requires Fits(font, glyphs, pages, strings, names, same, template)
    ensures FirstTagged(font) && PartsFit(font, glyphs, pages, strings, names, template)
    ensures |font.header| == 60 && font.header[..8] == FONTDATF && |font.stringsHeader| == 8 && TemplateFits(template)
    ensures |glyphs| < TWO_32 && (forall k | 0 <= k < |glyphs| :: GlyphFits(glyphs[k]))
    ensures TextureFits(template, pages, names) && StringsFit(strings) && PagesFit(pages)
    ensures forall k | 0 <= k < |names| :: NoZero(names[k])
    ensures font.fontAt + 3 <= |font.entries| && PackCount(font.packHeader) == Some((|font.entries|, |font.packHeader|))
    ensures PackFits(font.packHeader, Final(font, glyphs, pages, strings, names, same, template))
  {
    hide GlyphFits, StringsFit, TextureFits, NoZero, TagOf, TemplateFits, PackCount, PackFits, Final;
    HeaderFits(template, pages, names);
  }

  lemma EntryParts(header: Bytes, entries: seq<Bytes>, i: nat)
    requires PackFits(header, entries) && i < |entries| && EntryAt(header, entries, i)
    ensures PackLayout(Packed(header, entries)).Some? && i < |PackLayout(Packed(header, entries)).value.bounds|
    ensures PackLayout(Packed(header, entries)).value.bounds[i].0 == Base(header, entries) + Start(entries, i)
    ensures Inside(Packed(header, entries), PackLayout(Packed(header, entries)).value.bounds[i].0,
                   PackLayout(Packed(header, entries)).value.bounds[i].1, entries[i])
  {
    hide PackLayout, Packed, Base, Start, Inside;
  }

  lemma TagIs(d: Bytes, begin: nat, tag: Bytes)
    requires Inside(d, begin, begin + 8, tag)
    ensures Tag(d, begin) == tag
  {
  }

  /** What FontFile finds in a file whose parts are known. */
  lemma ReadFontIs(d: Bytes, at: nat, count: nat, strings: seq<seq<nat>>)
    requires PackLayout(d).Some? && PackLayout(d).value.table <= |d| && at + 2 < |PackLayout(d).value.bounds|
    requires var bounds := PackLayout(d).value.bounds;
      && FirstFont(d, bounds, 0) == at && Tag(d, bounds[at + 2].0) == FONTSTLB
      && bounds[at].0 + 60 + 16 * count <= |d| && Get32(d, bounds[at].0 + 16) == count
      && StringsOf(d, bounds[at + 2].0, bounds[at + 2].1) == Some(strings)
    ensures var bounds := PackLayout(d).value.bounds;
      ReadFont(d) == Some(Font(
        d[..PackLayout(d).value.table],
        seq(|bounds|, i requires 0 <= i < |bounds| => Slice(d, bounds[i].0, bounds[i].1)),
        at,
        Slice(d, bounds[at].0, bounds[at].0 + 60),
        ReadGlyphs(d, bounds[at].0 + 60, count),
        Slice(d, bounds[at].0 + 60 + 16 * count, bounds[at].1),
        Slice(d, bounds[at + 1].0, bounds[at + 1].1),
        Slice(d, bounds[at + 2].0 + 8, bounds[at + 2].0 + 16),
        strings))
  {
    hide PackLayout, FirstFont, Tag, StringsOf, Slice, ReadGlyphs, Get32;
  }

  /** A font that was read from a file has what serialize takes from it. */
  lemma ReadFontWhole(d: Bytes)
    requires ReadFont(d).Some?
    ensures var font := ReadFont(d).value;
      && font.fontAt + 3 <= |font.entries| && |font.header| == 60 && font.header[..8] == FONTDATF
        && |font.stringsHeader| == 8
      && PackCount(font.packHeader) == Some((|font.entries|, |font.packHeader|))
  {
    hide StringsOf, ReadGlyphs, FONTDATF, FONTSTLB, PackLayout, PackCount, Slice, Get32, Tag, FirstFont;
    var layout := PackLayout(d).value;
    var at := FirstFont(d, layout.bounds, 0);
    var font, table := layout.bounds[at], layout.bounds[at + 2];
    FoundTag(d, layout.bounds, 0);
    StringsHaveHeader(d, table.0, table.1);
    CountKept(d);
    SliceStart(d, font.0);
    SliceIs(d, table.0 + 8, table.0 + 16);
  }

  lemma SliceStart(d: Bytes, begin: nat)
    requires begin + 60 <= |d|
    ensures |Slice(d, begin, begin + 60)| == 60 && Slice(d, begin, begin + 60)[..8] == Tag(d, begin)
  {
  }

  lemma CountKept(d: Bytes)
    requires PackLayout(d).Some?
    ensures PackLayout(d).value.table <= |d|
    ensures PackCount(d[..PackLayout(d).value.table])
      == Some((|PackLayout(d).value.bounds|, |d[..PackLayout(d).value.table]|))
  {
    hide Get32s, Get16, PACK;
    var found := PackCount(d).value;
    var front := d[..found.1];
    assert front[..4] == d[..4] && front[5] == d[5];
    FrontCounts(d, found.1);
  }

  lemma FrontCounts(d: Bytes, table: nat)
    requires 12 <= table <= |d|
    ensures Get16(d[..table], 8) == Get16(d, 8) && Get16(d[..table], 10) == Get16(d, 10)
  {
  }

  lemma {:induction false} FoundTag(d: Bytes, bounds: seq<(nat, nat)>, i: nat)
    requires i <= |bounds| && FirstFont(d, bounds, i) < |bounds|
    ensures Tag(d, bounds[FirstFont(d, bounds, i)].0) == FONTDATF
    decreases |bounds| - i
  {
    hide Tag;
    if Tag(d, bounds[i].0) != FONTDATF {
      FoundTag(d, bounds, i + 1);
    }
  }

  lemma StringsHaveHeader(d: Bytes, begin: nat, end: nat)
    requires StringsOf(d, begin, end).Some?
    ensures begin + 20 <= |d|
  {
  }

  // ------------------------------------------------------------ writing what was read

  /** original_layout: the font's own glyphs, pages and strings, serialized again; None where
      the original raises an error. */
  ghost function OriginalLayout(font: Font): Option<Bytes> {
    var pages := Pages(font.texture);
    if pages.None? || pages.value == [] then None
    else
      var own, names := OwnPages(pages.value), OwnNames(pages.value);
      if !Fits(font, font.glyphs, own, font.strings, names, true, pages.value[0].template) then None
      else Some(Packed(font.packHeader,
        Final(font, font.glyphs, own, font.strings, names, true, pages.value[0].template)))
  }

  function OwnPages(pages: seq<PageRead>): (own: seq<Page>)
    ensures |own| == |pages|
  {
    seq(|pages|, k requires 0 <= k < |pages| => pages[k].page)
  }

  function OwnNames(pages: seq<PageRead>): (names: seq<Bytes>)
    ensures |names| == |pages|
  {
    seq(|pages|, k requires 0 <= k < |pages| => pages[k].name)
  }

  /** The front of one written page serves as well as the one it was made from. */
  lemma BlobAgain(template: Bytes, first: Page, page: Page)
    requires |template| == 128 && first.height < TWO_16 && page.height < TWO_16
    ensures |Blob(template, first)[..128]| == 128 && Blob(Blob(template, first)[..128], page) == Blob(template, page)
  {
    hide PutLittle;
    var patched := Patch(template, 12, PutLittle(first.height) + PutLittle(PAGE_W));
    assert Blob(template, first)[..128] == patched;
    assert patched[..12] == template[..12] && patched[20..] == template[20..];
  }

  lemma TextureAgain(template: Bytes, again: Bytes, pages: seq<Page>, names: seq<Bytes>)
    requires TextureFits(template, pages, names) && again == Blob(template, pages[0])[..128]
    ensures TextureFits(again, pages, names) && Texture(again, pages, names) == Texture(template, pages, names)
  {
    hide Put32s, Concat, NameParts, Blob, Zeros, Start;
    forall k | 0 <= k < |pages| ensures |again| == 128 && Blob(again, pages[k]) == Blob(template, pages[k]) {
      BlobAgain(template, pages[0], pages[k]);
    }
    assert Blobs(again, pages) == Blobs(template, pages);
    assert PageOffsets(again, pages, names) == PageOffsets(template, pages, names);
    assert PageSizes(again, pages, names) == PageSizes(template, pages, names);
  }

  /** A header that already has its count stays. */
  lemma HeaderAgain(header: Bytes, count: nat, pages: seq<Page>, same: bool)
    requires |header| == 60 && count < TWO_32 && PagesFit(pages)
    ensures HeaderOf(HeaderOf(header, count, pages, same), count, pages, true) == HeaderOf(header, count, pages, same)
  {
    hide HeaderOf, Put32;
    HeaderCounts(header, count, pages, same);
    HeaderCounted(HeaderOf(header, count, pages, same), count, pages);
  }

  lemma HeaderCounted(header: Bytes, count: nat, pages: seq<Page>)
    requires |header| == 60 && count < TWO_32 && PagesFit(pages) && header[16..20] == Put32(count)
    ensures HeaderOf(header, count, pages, true) == header
  {
    hide Put32;
    assert header == header[..16] + header[16..20] + header[20..];
  }

  /** What a written file's font takes from the file it was made for. */
  ghost predicate SameFont(font: Font, read: Font, header: Bytes) {
    && read.packHeader == font.packHeader && read.fontAt == font.fontAt && read.header == header
    && read.trailer == font.trailer && read.stringsHeader == font.stringsHeader
    && |read.entries| == |font.entries|
    && forall i | 0 <= i < |font.entries| && !(font.fontAt <= i < font.fontAt + 3) :: read.entries[i] == font.entries[i]
  }

  lemma EntriesAgain(font: Font, read: Font, glyphs: seq<Glyph>, pages: seq<Page>, strings: seq<seq<nat>>,
      names: seq<Bytes>, same: bool, template: Bytes, again: Bytes)
    requires font.fontAt + 3 <= |font.entries| && PartsFit(font, glyphs, pages, strings, names, template)
    requires PagesFit(pages) && again == Blob(template, pages[0])[..128]
    requires SameFont(font, read, HeaderOf(font.header, |glyphs|, pages, same))
    ensures PartsFit(read, glyphs, pages, strings, names, again)
    ensures Final(read, glyphs, pages, strings, names, true, again)
      == Final(font, glyphs, pages, strings, names, same, template)
  {
    hide HeaderOf, FontData, Texture, StringTable, StringsFit, GlyphFits, TextureFits, Blob, Concat, Zeros, PagesFit;
    TextureAgain(template, again, pages, names);
    HeaderAgain(font.header, |glyphs|, pages, same);
    var entries := Rebuilt(font, glyphs, pages, strings, names, same, template);
    assert read.entries[..read.fontAt] == font.entries[..font.fontAt];
    assert read.entries[read.fontAt + 3..] == font.entries[font.fontAt + 3..];
    assert Rebuilt(read, glyphs, pages, strings, names, true, again) == entries;
  }

  lemma FitsAgain(font: Font, read: Font, glyphs: seq<Glyph>, pages: seq<Page>, strings: seq<seq<nat>>,
      names: seq<Bytes>, same: bool, template: Bytes, again: Bytes)
    requires Fits(font, glyphs, pages, strings, names, same, template) && PagesFit(pages)
    requires again == Blob(template, pages[0])[..128] && |again| == 128 && again[..4] == DDS
    requires SameFont(font, read, HeaderOf(font.header, |glyphs|, pages, same))
    requires PartsFit(read, glyphs, pages, strings, names, again)
    requires Final(read, glyphs, pages, strings, names, true, again)
      == Final(font, glyphs, pages, strings, names, same, template)
    ensures Fits(read, glyphs, pages, strings, names, true, again)
  {
    hide Final, PartsFit, NoZero, PackCount, PackFits, TagOf, HeaderOf, PagesFit, Blob, FONTDATF;
    HeaderTag(font, glyphs, pages, strings, names, template, same);
    assert read.entries[..read.fontAt] == font.entries[..font.fontAt];
  }

  lemma HeaderTag(font: Font, glyphs: seq<Glyph>, pages: seq<Page>, strings: seq<seq<nat>>, names: seq<Bytes>,
      template: Bytes, same: bool)
    requires PartsFit(font, glyphs, pages, strings, names, template) && PagesFit(pages)
    ensures HeaderOf(font.header, |glyphs|, pages, same)[..8] == font.header[..8]
  {
    hide HeaderOf, TextureFits, StringsFit, GlyphFits;
    HeaderCounts(font.header, |glyphs|, pages, same);
    var header := HeaderOf(font.header, |glyphs|, pages, same);
    assert header[..8] == header[0..16][..8] == font.header[0..16][..8] == font.header[..8];
  }

  lemma BlobTag(template: Bytes, page: Page)
    requires TemplateFits(template) && page.height < TWO_16
    ensures |Blob(template, page)[..128]| == 128 && Blob(template, page)[..128][..4] == DDS
  {
    hide PutLittle;
    var patched := Patch(template, 12, PutLittle(page.height) + PutLittle(PAGE_W));
    assert Blob(template, page)[..128] == patched;
    assert patched[..4] == patched[..12][..4] == template[..12][..4] == template[..4];
  }

  /** A file serialize wrote, read and written again, is the same file byte for byte. */
  lemma RewrittenIsSame(font: Font, glyphs: seq<Glyph>, pages: seq<Page>, strings: seq<seq<nat>>, names: seq<Bytes>,
      same: bool, template: Bytes)
    requires Fits(font, glyphs, pages, strings, names, same, template)
    ensures var d := Packed(font.packHeader, Final(font, glyphs, pages, strings, names, same, template));
      ReadFont(d).Some? && OriginalLayout(ReadFont(d).value) == Some(d)
  {
    hide *;
    PackRoundTrip(font, glyphs, pages, strings, names, same, template);
    FitsParts(font, glyphs, pages, strings, names, same, template);
    PageCount(template, pages, names);
    var read := ReadFont(Packed(font.packHeader, Final(font, glyphs, pages, strings, names, same, template))).value;
    var back := Pages(read.texture).value;
    PagesAgain(back, template, pages, names);
    var again := back[0].template;
    BlobTag(template, pages[0]);
    SameFontIs(font, read, HeaderOf(font.header, |glyphs|, pages, same));
    EntriesAgain(font, read, glyphs, pages, strings, names, same, template, again);
    FitsAgain(font, read, glyphs, pages, strings, names, same, template, again);
    assert Fits(read, read.glyphs, OwnPages(back), read.strings, OwnNames(back), true, again);
    LayoutIs(read);
    assert read.packHeader == font.packHeader;
  }

  lemma PagesAgain(back: seq<PageRead>, template: Bytes, pages: seq<Page>, names: seq<Bytes>)
    requires |back| == |pages| == |names| > 0
    requires forall k | 0 <= k < |pages| :: PageBack(back[k], names[k], pages[k], template)
    ensures OwnPages(back) == pages && OwnNames(back) == names
    ensures |template| == 128 && pages[0].height < TWO_16 && back[0].template == Blob(template, pages[0])[..128]
  {
    hide Blob;
    assert PageBack(back[0], names[0], pages[0], template);
  }

  lemma SameFontIs(font: Font, read: Font, header: Bytes)
    requires read.packHeader == font.packHeader && read.fontAt == font.fontAt && read.header == header
    requires read.trailer == font.trailer && read.stringsHeader == font.stringsHeader
    requires |read.entries| == |font.entries|
    requires forall i | 0 <= i < |font.entries| && !(font.fontAt <= i < font.fontAt + 3) ::
      read.entries[i] == font.entries[i]
    ensures SameFont(font, read, header)
  {
  }

  lemma LayoutIs(font: Font)
    requires Pages(font.texture).Some? && Pages(font.texture).value != []
    requires var pages := Pages(font.texture).value;
      Fits(font, font.glyphs, OwnPages(pages), font.strings, OwnNames(pages), true, pages[0].template)
    ensures var pages := Pages(font.texture).value;
      var own, names, template := OwnPages(pages), OwnNames(pages), pages[0].template;
      && font.fontAt + 3 <= |font.entries| && PartsFit(font, font.glyphs, own, font.strings, names, template)
      && PackFits(font.packHeader, Final(font, font.glyphs, own, font.strings, names, true, template))
      && OriginalLayout(font) == Some(Packed(font.packHeader,
        Final(font, font.glyphs, own, font.strings, names, true, template)))
  {
    hide Final, Packed, Pages, PartsFit, PackFits, TagOf, OwnPages, OwnNames, PackCount, NoZero;
  }
}
