/** What an accepted archive is made of: the tables of PKWARE APPNOTE, sections 4.3.7, 4.3.12, 4.3.16 and 4.5.1, as
    they are written, with the fields an entry may have. */
module ZipLayout {
  import PathTrie
  import opened ZipDirectory

  predicate IsBytes(file: string)
  {
    forall i | 0 <= i < |file| :: file[i] < 256 as char
  }

  /** These bytes stand at this place. */
  predicate Text(file: string, at: nat, text: string)
  {
    at + |text| <= |file| && file[at..at + |text|] == text
  }

  /** This number stands there in two bytes, the least significant one first. */
  predicate Two(file: string, at: nat, n: nat)
  {
    n < 0x1_0000 && Text(file, at, [(n % 256) as char, (n / 256) as char])
  }

  /** In four bytes: the low half, and then the high one. */
  predicate Four(file: string, at: nat, n: nat)
  {
    n < 0x1_0000_0000 && Two(file, at, n % 0x1_0000) && Two(file, at + 2, n / 0x1_0000)
  }

  // ----- the numbers of a file -----

  lemma TwoMeans(file: string, at: nat, n: nat)
    requires IsBytes(file) && at + 2 <= |file|
    ensures U16(file, at) < 0x1_0000
    ensures Two(file, at, n) <==> U16(file, at) == n
  {
    var field := file[at..at + 2];
    assert file[at] == field[0] && file[at + 1] == field[1];
    if U16(file, at) == n {
      assert field == [(n % 256) as char, (n / 256) as char];
    }
  }

  lemma FourMeans(file: string, at: nat, n: nat)
    requires IsBytes(file) && at + 4 <= |file|
    ensures U32(file, at) < 0x1_0000_0000
    ensures Four(file, at, n) <==> U32(file, at) == n
  {
    hide Two, U16;
    TwoMeans(file, at, n % 0x1_0000);
    TwoMeans(file, at + 2, n / 0x1_0000);
    assert U32(file, at) % 0x1_0000 == U16(file, at) && U32(file, at) / 0x1_0000 == U16(file, at + 2);
  }

  // ----- extra fields -----

  datatype Extra = Extra(tag: nat, data: string)

  /** The fields one after the other: tag, length, data. */
  ghost predicate ExtrasAt(area: string, extras: seq<Extra>)
  {
    if |extras| == 0 then area == ""
    else
      var size := 4 + |extras[0].data|;
      && Two(area, 0, extras[0].tag) && Two(area, 2, |extras[0].data|) && Text(area, 4, extras[0].data)
      && ExtrasAt(area[size..], extras[1..])
  }

  /** Neither Zip64 nor a Unicode path or comment nor encryption. */
  predicate PlainTag(tag: nat)
  {
    tag != 0x0001 && tag != 0x7075 && tag != 0x6375 && tag != 0x9901 && tag != 0x0017
  }

  ghost predicate PlainExtra(area: string)
  {
    exists extras: seq<Extra> :: ExtrasAt(area, extras) && forall i | 0 <= i < |extras| :: PlainTag(extras[i].tag)
  }

  lemma {:induction false} ExtrasArePlain(area: string, extras: seq<Extra>)
    requires IsBytes(area) && ExtrasAt(area, extras) && forall i | 0 <= i < |extras| :: PlainTag(extras[i].tag)
    ensures ExtraFieldsOk(area)
    decreases |extras|
  {
    if |extras| > 0 {
      hide Two, Text, U16;
      assert |area| >= 4 + |extras[0].data| by { ExtraFits(area, extras); }
      TwoMeans(area, 0, extras[0].tag);
      TwoMeans(area, 2, |extras[0].data|);
      ExtrasArePlain(area[4 + |extras[0].data|..], extras[1..]);
    }
  }

  lemma ExtraFits(area: string, extras: seq<Extra>)
    requires |extras| > 0 && ExtrasAt(area, extras)
    ensures |area| >= 4 + |extras[0].data|
  {
  }

  lemma OneMoreExtra(area: string, extras: seq<Extra>)
    requires IsBytes(area) && |area| >= 4 && 4 + U16(area, 2) <= |area|
    requires ExtrasAt(area[4 + U16(area, 2)..], extras)
    ensures ExtrasAt(area, [Extra(U16(area, 0), area[4..4 + U16(area, 2)])] + extras)
  {
    hide Two, U16;
    var first := Extra(U16(area, 0), area[4..4 + U16(area, 2)]);
    TwoMeans(area, 0, first.tag);
    TwoMeans(area, 2, |first.data|);
    assert ([first] + extras)[1..] == extras;
  }

  lemma {:induction false} ExtrasOf(area: string) returns (extras: seq<Extra>)
    requires IsBytes(area) && ExtraFieldsOk(area)
    ensures ExtrasAt(area, extras) && forall i | 0 <= i < |extras| :: PlainTag(extras[i].tag)
    decreases |area|
  {
    hide Two, Text, U16;
    if area == "" {
      extras := [];
    } else {
      extras := ExtrasOf(area[4 + U16(area, 2)..]);
      OneMoreExtra(area, extras);
      extras := [Extra(U16(area, 0), area[4..4 + U16(area, 2)])] + extras;
    }
  }

  /** The loop over the extra fields accepts exactly the areas written from plain ones. */
  lemma PlainExtraMeans(area: string)
    requires IsBytes(area)
    ensures ExtraFieldsOk(area) <==> PlainExtra(area)
  {
    hide ExtrasAt, ExtraFieldsOk;
    if ExtraFieldsOk(area) {
      var extras := ExtrasOf(area);
    }
    if extras: seq<Extra> :| ExtrasAt(area, extras) && forall i | 0 <= i < |extras| :: PlainTag(extras[i].tag) {
      ExtrasArePlain(area, extras);
    }
  }

  // ----- a directory entry -----

  /** The fields of an entry that matter; the two bytes for the time, the two for the date together. */
  datatype Header = Header(
    host: char, needed: nat, flags: nat, compression: nat, stamp: string, crc: nat, compressed: nat, expanded: nat,
    disk: nat, external: nat, local: nat, name: string, extra: string, comment: string)
  {
    function Size(): nat { 46 + |name| + |extra| + |comment| }
  }

  /** The entry stands in the directory at this place. */
  ghost predicate CentralAt(dir: string, at: nat, h: Header)
  {
    && Text(dir, at, ['P', 'K', 1 as char, 2 as char])
    && Text(dir, at + 5, [h.host])
    && Two(dir, at + 6, h.needed)
    && Two(dir, at + 8, h.flags)
    && Two(dir, at + 10, h.compression)
    && |h.stamp| == 4 && Text(dir, at + 12, h.stamp)
    && Four(dir, at + 16, h.crc)
    && Four(dir, at + 20, h.compressed)
    && Four(dir, at + 24, h.expanded)
    && Two(dir, at + 28, |h.name|)
    && Two(dir, at + 30, |h.extra|)
    && Two(dir, at + 32, |h.comment|)
    && Two(dir, at + 34, h.disk)
    && Four(dir, at + 38, h.external)
    && Four(dir, at + 42, h.local)
    && Text(dir, at + 46, h.name)
    && Text(dir, at + 46 + |h.name|, h.extra)
    && Text(dir, at + 46 + |h.name| + |h.extra|, h.comment)
  }

  /** A trailing slash makes a directory. */
  predicate NamesDirectory(h: Header)
  {
    |h.name| > 0 && h.name[|h.name| - 1] == '/'
  }

  /** Stored or deflated, with no flags but those of deflation and UTF-8, on the one disk, without Zip64 sizes, made
      by MS-DOS or Unix, as the file or the directory that its name says, and not too large for its data. */
  ghost predicate Plain(h: Header, limits: Limits)
  {
    && h.compressed != 0xFFFF_FFFF && h.expanded != 0xFFFF_FFFF && h.local != 0xFFFF_FFFF && h.disk == 0
    && (h.compression == 0 || h.compression == 8)
    && (exists maximum, fast, utf8 ::
          0 <= maximum < 2 && 0 <= fast < 2 && 0 <= utf8 < 2 && h.flags == 2 * maximum + 4 * fast + 0x800 * utf8)
    && (h.host == 0 as char
        || (h.host == 3 as char && h.external / 0x1000_0000 in {0, if NamesDirectory(h) then 4 else 8}))
    && h.external % 16 < 8
    && (h.external % 32 >= 16 ==> NamesDirectory(h))
    && (NamesDirectory(h) ==> h.compressed == 0 == h.expanded)
    && PlainExtra(h.extra)
    && h.expanded <= limits.maxEntryBytes && h.expanded <= h.compressed * limits.maxExpansionRatio
  }

  /** What the code reads where the entry stands. */
  lemma CentralRead(dir: string, at: nat, h: Header)
    requires IsBytes(dir) && CentralAt(dir, at, h)
    ensures at + 46 <= |dir| && Signature(dir, at, 1, 2) && dir[at + 5] == h.host && dir[at + 12..at + 16] == h.stamp
    ensures U16(dir, at + 6) == h.needed && U16(dir, at + 8) == h.flags && U16(dir, at + 10) == h.compression
    ensures U32(dir, at + 16) == h.crc && U32(dir, at + 20) == h.compressed && U32(dir, at + 24) == h.expanded
    ensures NameLength(dir, at) == |h.name| && ExtraLength(dir, at) == |h.extra|
    ensures CommentLength(dir, at) == |h.comment| && U16(dir, at + 34) == h.disk
    ensures U32(dir, at + 38) == h.external < 0x1_0000_0000 && U32(dir, at + 42) == h.local
    ensures Next(dir, at) == at + h.Size() <= |dir| && RawName(dir, at) == h.name && Expanded(dir, at) == h.expanded
    ensures dir[at + 46 + |h.name|..at + 46 + |h.name| + |h.extra|] == h.extra
  {
    hide Two, Four, U16, U32;
    TwoMeans(dir, at + 6, h.needed);
    TwoMeans(dir, at + 8, h.flags);
    TwoMeans(dir, at + 10, h.compression);
    FourMeans(dir, at + 16, h.crc);
    FourMeans(dir, at + 20, h.compressed);
    FourMeans(dir, at + 24, h.expanded);
    TwoMeans(dir, at + 28, |h.name|);
    TwoMeans(dir, at + 30, |h.extra|);
    TwoMeans(dir, at + 32, |h.comment|);
    TwoMeans(dir, at + 34, h.disk);
    FourMeans(dir, at + 38, h.external);
    FourMeans(dir, at + 42, h.local);
    var magic := dir[at..at + 4];
    assert dir[at] == magic[0] && dir[at + 1] == magic[1] && dir[at + 2] == magic[2] && dir[at + 3] == magic[3];
    assert dir[at + 5..at + 6][0] == dir[at + 5];
  }

  /** The entry that the code reads. */
  function HeaderOf(dir: string, at: nat): Header
    requires Next(dir, at) <= |dir| && at + 46 <= |dir|
  {
    var nameEnd := at + 46 + U16(dir, at + 28);
    var extraEnd := nameEnd + U16(dir, at + 30);
    Header(
      dir[at + 5], U16(dir, at + 6), U16(dir, at + 8), U16(dir, at + 10), dir[at + 12..at + 16], U32(dir, at + 16),
      U32(dir, at + 20), U32(dir, at + 24), U16(dir, at + 34), U32(dir, at + 38), U32(dir, at + 42),
      dir[at + 46..nameEnd], dir[nameEnd..extraEnd], dir[extraEnd..extraEnd + U16(dir, at + 32)])
  }

  lemma HeaderStands(dir: string, at: nat)
    requires IsBytes(dir) && at + 46 <= |dir| && Next(dir, at) <= |dir| && Signature(dir, at, 1, 2)
    ensures CentralAt(dir, at, HeaderOf(dir, at))
  {
    hide Two, Four, U16, U32;
    var h := HeaderOf(dir, at);
    TwoMeans(dir, at + 6, h.needed);
    TwoMeans(dir, at + 8, h.flags);
    TwoMeans(dir, at + 10, h.compression);
    FourMeans(dir, at + 16, h.crc);
    FourMeans(dir, at + 20, h.compressed);
    FourMeans(dir, at + 24, h.expanded);
    TwoMeans(dir, at + 28, |h.name|);
    TwoMeans(dir, at + 30, |h.extra|);
    TwoMeans(dir, at + 32, |h.comment|);
    TwoMeans(dir, at + 34, h.disk);
    FourMeans(dir, at + 38, h.external);
    FourMeans(dir, at + 42, h.local);
  }

  lemma FlagsMean(flags: nat)
    ensures flags in {0, 2, 4, 6, 0x800, 0x802, 0x804, 0x806} <==>
      exists maximum, fast, utf8 ::
        0 <= maximum < 2 && 0 <= fast < 2 && 0 <= utf8 < 2 && flags == 2 * maximum + 4 * fast + 0x800 * utf8
  {
    if flags in {0, 2, 4, 6, 0x800, 0x802, 0x804, 0x806} {
      assert flags == 2 * (flags / 2 % 2) + 4 * (flags / 4 % 2) + 0x800 * (flags / 0x800);
    }
  }

  lemma AttributesMean(external: nat)
    requires external < 0x1_0000_0000
    ensures external / 0x1000_0000 % 16 == external / 0x1000_0000
    ensures external / 8 % 2 == 0 <==> external % 16 < 8
    ensures external / 16 % 2 == 1 <==> external % 32 >= 16
  {
  }

  lemma PlainMeans(dir: string, at: nat, h: Header, limits: Limits)
    requires IsBytes(dir) && CentralAt(dir, at, h)
    ensures CentralOk(dir, at, limits) <==> Plain(h, limits)
  {
    hide CentralAt, U16, U32, ExtraFieldsOk, PlainExtra, NameLength, ExtraLength, CommentLength, RawName, Expanded,
         Next,
         Signature;
    CentralRead(dir, at, h);
    FlagsMean(h.flags);
    AttributesMean(h.external);
    PlainExtraMeans(h.extra);
  }

  /** An entry of the directory is accepted exactly when a plain one stands there. */
  lemma CentralMeans(dir: string, at: nat, limits: Limits)
    requires IsBytes(dir)
    ensures CentralOk(dir, at, limits) <==> exists h :: CentralAt(dir, at, h) && Plain(h, limits)
  {
    hide CentralAt, Plain, U16, U32, ExtraFieldsOk, FeaturesKnown, AttributesKnown, SizesKnown;
    if CentralOk(dir, at, limits) {
      HeaderStands(dir, at);
      PlainMeans(dir, at, HeaderOf(dir, at), limits);
    }
    if h :| CentralAt(dir, at, h) && Plain(h, limits) {
      PlainMeans(dir, at, h, limits);
    }
  }

  // ----- a local record -----

  /** The record of an entry stands where the entry says, up to its data, and says the same. */
  ghost predicate LocalAt(file: string, h: Header, extra: string)
  {
    && Text(file, h.local, ['P', 'K', 3 as char, 4 as char])
    && Two(file, h.local + 4, h.needed)
    && Two(file, h.local + 6, h.flags)
    && Two(file, h.local + 8, h.compression)
    && Text(file, h.local + 10, h.stamp)
    && Four(file, h.local + 14, h.crc)
    && Four(file, h.local + 18, h.compressed)
    && Four(file, h.local + 22, h.expanded)
    && Two(file, h.local + 26, |h.name|)
    && Two(file, h.local + 28, |extra|)
    && Text(file, h.local + 30, h.name)
    && Text(file, h.local + 30 + |h.name|, extra)
  }

  /** Where its data end. */
  function LocalEnd(h: Header, extra: string): nat
  {
    h.local + 30 + |h.name| + |extra| + h.compressed
  }

  lemma LocalFields(file: string, local: nat, h: Header)
    requires IsBytes(file) && local + 30 <= |file| && h.local == local && |h.stamp| == 4
    ensures Signature(file, local, 3, 4) <==> Text(file, local, ['P', 'K', 3 as char, 4 as char])
    ensures file[local + 10..local + 14] == h.stamp <==> Text(file, local + 10, h.stamp)
    ensures U16(file, local + 4) == h.needed <==> Two(file, local + 4, h.needed)
    ensures U16(file, local + 6) == h.flags <==> Two(file, local + 6, h.flags)
    ensures U16(file, local + 8) == h.compression <==> Two(file, local + 8, h.compression)
    ensures U32(file, local + 14) == h.crc <==> Four(file, local + 14, h.crc)
    ensures U32(file, local + 18) == h.compressed <==> Four(file, local + 18, h.compressed)
    ensures U32(file, local + 22) == h.expanded <==> Four(file, local + 22, h.expanded)
    ensures U16(file, local + 26) == |h.name| <==> Two(file, local + 26, |h.name|)
  {
    hide Two, Four, U16, U32;
    var magic := file[local..local + 4];
    assert file[local] == magic[0] && file[local + 1] == magic[1];
    assert file[local + 2] == magic[2] && file[local + 3] == magic[3];
    TwoMeans(file, local + 4, h.needed);
    TwoMeans(file, local + 6, h.flags);
    TwoMeans(file, local + 8, h.compression);
    FourMeans(file, local + 14, h.crc);
    FourMeans(file, local + 18, h.compressed);
    FourMeans(file, local + 22, h.expanded);
    TwoMeans(file, local + 26, |h.name|);
  }

  lemma LocalHeaderMeans(file: string, dir: string, at: nat, h: Header)
    requires IsBytes(file) && IsBytes(dir) && CentralAt(dir, at, h) && h.local + 30 <= |file|
    ensures LocalHeaderOk(file, dir, at) <==>
      && Text(file, h.local, ['P', 'K', 3 as char, 4 as char])
      && Two(file, h.local + 4, h.needed)
      && Two(file, h.local + 6, h.flags)
      && Two(file, h.local + 8, h.compression)
      && Text(file, h.local + 10, h.stamp)
      && Four(file, h.local + 14, h.crc)
      && Four(file, h.local + 18, h.compressed)
      && Four(file, h.local + 22, h.expanded)
      && Two(file, h.local + 26, |h.name|)
  {
    hide Text, Two, Four, U16, U32, Signature, NameLength;
    assert |h.stamp| == 4;
    CentralRead(dir, at, h);
    LocalFields(file, h.local, h);
  }

  /** A local record is accepted exactly when it stands there, with plain extra fields, before the directory. */
  lemma LocalMeans(file: string, dir: string, start: nat, at: nat, h: Header)
    requires IsBytes(file) && IsBytes(dir) && CentralAt(dir, at, h) && start <= |file|
    ensures LocalOk(file, dir, start, at) <==>
      exists extra :: LocalAt(file, h, extra) && PlainExtra(extra) && LocalEnd(h, extra) <= start
    ensures forall extra :: LocalAt(file, h, extra) ==> RecordRange(file, dir, at) == Range(h.local, LocalEnd(h, extra))
  {
    hide CentralAt, Two, Four, U16, U32, ExtraFieldsOk, PlainExtra, LocalHeaderOk, NameLength;
    CentralRead(dir, at, h);
    if h.local + 30 <= |file| {
      LocalHeaderMeans(file, dir, at, h);
      var nameEnd, length := h.local + 30 + |h.name|, U16(file, h.local + 28);
      TwoMeans(file, h.local + 28, length);
      if LocalOk(file, dir, start, at) {
        var extra := file[nameEnd..nameEnd + length];
        PlainExtraMeans(extra);
        assert LocalAt(file, h, extra);
      }
      forall extra | LocalAt(file, h, extra)
        ensures RecordRange(file, dir, at) == Range(h.local, LocalEnd(h, extra))
        ensures PlainExtra(extra) && LocalEnd(h, extra) <= start ==> LocalOk(file, dir, start, at)
      {
        TwoMeans(file, h.local + 28, |extra|);
        PlainExtraMeans(extra);
        assert file[nameEnd..nameEnd + |extra|] == extra;
      }
    }
  }

  // ----- the directory -----

  datatype Entry = Entry(header: Header, localExtra: string)

  /** Where the k-th entry stands: after those before it. */
  function Place(entries: seq<Entry>, k: nat): nat
    requires k <= |entries|
  {
    if k == 0 then 0 else Place(entries, k - 1) + entries[k - 1].header.Size()
  }

  function ExpandedSum(entries: seq<Entry>): nat
  {
    if |entries| == 0 then 0
    else ExpandedSum(entries[..|entries| - 1]) + entries[|entries| - 1].header.expanded
  }

  function NamesOf(entries: seq<Entry>): (names: seq<string>)
  {
    seq(|entries|, i requires 0 <= i < |entries| => entries[i].header.name)
  }

  /** The records from the first byte of the header to the last one of the data. */
  function Records(entries: seq<Entry>): (ranges: seq<Range>)
  {
    seq(|entries|, i requires 0 <= i < |entries| =>
      Range(entries[i].header.local, LocalEnd(entries[i].header, entries[i].localExtra)))
  }

  predicate Spans(record: Range, b: int)
  {
    record.start <= b < record.end
  }

  ghost predicate Spanned(records: seq<Range>, b: int)
  {
    exists i :: 0 <= i < |records| && Spans(records[i], b)
  }

  ghost predicate SpannedTwice(records: seq<Range>, b: int)
  {
    exists i, j :: 0 <= i < j < |records| && Spans(records[i], b) && Spans(records[j], b)
  }

  /** Every byte before this place is in a record, no byte is in two, and none is beyond. */
  ghost predicate Covers(records: seq<Range>, end: nat)
  {
    forall b: int :: (Spanned(records, b) <==> 0 <= b < end) && !SpannedTwice(records, b)
  }

  lemma {:induction false} CountFinds(ranges: seq<Range>, b: int)
    ensures Count(ranges, b) >= 1 ==> Spanned(ranges, b)
    ensures Count(ranges, b) >= 2 ==> SpannedTwice(ranges, b)
  {
    if |ranges| > 0 {
      var rest := ranges[1..];
      CountFinds(rest, b);
      if i :| 0 <= i < |rest| && Spans(rest[i], b) {
        assert ranges[i + 1] == rest[i];
      }
      if i, j :| 0 <= i < j < |rest| && Spans(rest[i], b) && Spans(rest[j], b) {
        assert ranges[i + 1] == rest[i] && ranges[j + 1] == rest[j];
      }
    }
  }

  lemma CountMeans(ranges: seq<Range>, b: int)
    ensures Count(ranges, b) >= 1 <==> Spanned(ranges, b)
    ensures Count(ranges, b) >= 2 <==> SpannedTwice(ranges, b)
  {
    hide Count;
    CountFinds(ranges, b);
    if i: nat :| i < |ranges| && Spans(ranges[i], b) { CountOne(ranges, i, b); }
    if i: nat, j: nat :| i < j < |ranges| && Spans(ranges[i], b) && Spans(ranges[j], b) {
      CountTwo(ranges, i, j, b);
    }
  }

  /** Counting one record for every byte up to the directory is covering them. */
  lemma TilesMeans(ranges: seq<Range>, end: nat)
    ensures Tiles(ranges, 0, end) <==> Covers(ranges, end)
  {
    hide Count, Spanned, SpannedTwice;
    forall b: int
      ensures Count(ranges, b) >= 1 <==> Spanned(ranges, b)
      ensures Count(ranges, b) >= 2 <==> SpannedTwice(ranges, b)
    {
      CountMeans(ranges, b);
    }
  }

  /** One entry, plain in the directory and in its record. */
  ghost predicate EntryAt(file: string, dir: string, start: nat, at: nat, e: Entry, limits: Limits)
  {
    && CentralAt(dir, at, e.header) && Plain(e.header, limits)
    && LocalAt(file, e.header, e.localExtra) && PlainExtra(e.localExtra)
    && LocalEnd(e.header, e.localExtra) <= start
  }

  ghost predicate EntriesAt(file: string, dir: string, start: nat, entries: seq<Entry>, limits: Limits)
  {
    forall k | 0 <= k < |entries| :: EntryAt(file, dir, start, Place(entries, k), entries[k], limits)
  }

  /** The entries fill the directory one after the other, their records fill the file up to it in any order, the
      names go together, and the sizes are within the limits. */
  ghost predicate Filled(file: string, dir: string, start: nat, entries: seq<Entry>, limits: Limits)
  {
    && EntriesAt(file, dir, start, entries, limits)
    && Place(entries, |entries|) == |dir|
    && Covers(Records(entries), start)
    && PathTrie.Acceptable(NamesOf(entries), limits.names)
    && ExpandedSum(entries) <= limits.maxTotalDeclaredBytes
  }

  lemma EntryMeans(file: string, dir: string, start: nat, at: nat, limits: Limits)
    requires IsBytes(file) && IsBytes(dir) && start <= |file|
    ensures EntryOk(file, dir, start, at, limits) <==> exists e :: EntryAt(file, dir, start, at, e, limits)
  {
    hide CentralAt, Plain, LocalAt, PlainExtra, CentralOk, LocalOk;
    if EntryOk(file, dir, start, at, limits) {
      CentralMeans(dir, at, limits);
      var h :| CentralAt(dir, at, h) && Plain(h, limits);
      LocalMeans(file, dir, start, at, h);
      var extra :| LocalAt(file, h, extra) && PlainExtra(extra) && LocalEnd(h, extra) <= start;
      assert EntryAt(file, dir, start, at, Entry(h, extra), limits);
    }
    if e :| EntryAt(file, dir, start, at, e, limits) {
      EntryRead(file, dir, start, at, e, limits);
    }
  }

  lemma EntryRead(file: string, dir: string, start: nat, at: nat, e: Entry, limits: Limits)
    requires IsBytes(file) && IsBytes(dir) && start <= |file| && EntryAt(file, dir, start, at, e, limits)
    ensures EntryOk(file, dir, start, at, limits)
    ensures Next(dir, at) == at + e.header.Size() && RawName(dir, at) == e.header.name
    ensures Expanded(dir, at) == e.header.expanded
    ensures RecordRange(file, dir, at) == Range(e.header.local, LocalEnd(e.header, e.localExtra))
  {
    hide CentralAt, Plain, LocalAt, PlainExtra, CentralOk, LocalOk;
    CentralMeans(dir, at, limits);
    CentralRead(dir, at, e.header);
    LocalMeans(file, dir, start, at, e.header);
  }

  lemma OneMoreEntry(front: seq<Entry>, last: Entry)
    ensures var all := front + [last];
      && (forall k | 0 <= k <= |front| :: Place(all, k) == Place(front, k))
      && Place(all, |all|) == Place(front, |front|) + last.header.Size()
      && NamesOf(all) == NamesOf(front) + [last.header.name]
      && ExpandedSum(all) == ExpandedSum(front) + last.header.expanded
      && Records(all) == Records(front) + [Range(last.header.local, LocalEnd(last.header, last.localExtra))]
  {
    hide LocalEnd;
    var all := front + [last];
    assert all[..|front|] == front;
    forall k | 0 <= k <= |front| ensures Place(all, k) == Place(front, k) { PlacePrefix(all, |front|, k); }
  }

  lemma EntriesSnoc(file: string, dir: string, start: nat, front: seq<Entry>, last: Entry, limits: Limits)
    ensures EntriesAt(file, dir, start, front + [last], limits) <==>
      && EntriesAt(file, dir, start, front, limits)
      && EntryAt(file, dir, start, Place(front, |front|), last, limits)
  {
    hide EntryAt, Place;
    var all := front + [last];
    OneMoreEntry(front, last);
    forall k | 0 <= k < |front|
      ensures EntryAt(file, dir, start, Place(all, k), all[k], limits) <==>
        EntryAt(file, dir, start, Place(front, k), front[k], limits)
    {
    }
    assert all[|front|] == last && Place(all, |front|) == Place(front, |front|);
    if EntriesAt(file, dir, start, all, limits) {
      assert EntryAt(file, dir, start, Place(all, |front|), all[|front|], limits);
    }
  }

  lemma OneMoreRead(file: string, dir: string, n: nat)
    ensures Offset(dir, n + 1) == Next(dir, Offset(dir, n))
    ensures Names(dir, n + 1) == Names(dir, n) + [RawName(dir, Offset(dir, n))]
    ensures TotalExpanded(dir, n + 1) == TotalExpanded(dir, n) + Expanded(dir, Offset(dir, n))
    ensures Ranges(file, dir, n + 1) == Ranges(file, dir, n) + [RecordRange(file, dir, Offset(dir, n))]
  {
    hide Next, RawName, Expanded, RecordRange;
  }

  lemma NothingRead(file: string, dir: string)
    ensures Offset(dir, 0) == Place([], 0) && Names(dir, 0) == NamesOf([])
    ensures TotalExpanded(dir, 0) == ExpandedSum([]) && Ranges(file, dir, 0) == Records([])
  {
  }

  /** The first entries, read one after the other. */
  lemma {:induction false} EntriesRead(file: string, dir: string, start: nat, entries: seq<Entry>, limits: Limits)
    requires IsBytes(file) && IsBytes(dir) && start <= |file| && EntriesAt(file, dir, start, entries, limits)
    ensures Offset(dir, |entries|) == Place(entries, |entries|)
    ensures Names(dir, |entries|) == NamesOf(entries)
    ensures TotalExpanded(dir, |entries|) == ExpandedSum(entries)
    ensures Ranges(file, dir, |entries|) == Records(entries)
    ensures forall k | 0 <= k < |entries| :: EntryOk(file, dir, start, Offset(dir, k), limits)
  {
    hide EntryOk, EntryAt, Next, RawName, Expanded, RecordRange, LocalEnd, IsBytes, Place, NamesOf, ExpandedSum,
         Records,
         EntriesAt, Offset, Names, TotalExpanded, Ranges;
    if |entries| > 0 {
      var n := |entries| - 1;
      var front, last := entries[..n], entries[n];
      assert entries == front + [last];
      OneMoreEntry(front, last);
      EntriesSnoc(file, dir, start, front, last, limits);
      EntriesRead(file, dir, start, front, limits);
      EntryRead(file, dir, start, Place(front, n), last, limits);
      OneMoreRead(file, dir, n);
    } else {
      assert entries == [];
      NothingRead(file, dir);
    }
  }

  lemma {:induction false} PlacePrefix(entries: seq<Entry>, n: nat, k: nat)
    requires k <= n <= |entries|
    ensures Place(entries[..n], k) == Place(entries, k)
  {
    if k > 0 { PlacePrefix(entries, n, k - 1); }
  }

  /** Entry by entry, what is accepted is what stands there. */
  lemma {:induction false} EntriesFound(file: string, dir: string, start: nat, count: nat, limits: Limits)
    returns (entries: seq<Entry>)
    requires IsBytes(file) && IsBytes(dir) && start <= |file|
    requires forall k | 0 <= k < count :: EntryOk(file, dir, start, Offset(dir, k), limits)
    ensures |entries| == count && EntriesAt(file, dir, start, entries, limits)
  {
    hide EntryOk, EntryAt, Offset, Place, NamesOf, ExpandedSum, Records, Names, TotalExpanded, Ranges, IsBytes;
    entries := [];
    if count > 0 {
      hide EntriesAt;
      var front := EntriesFound(file, dir, start, count - 1, limits);
      EntriesRead(file, dir, start, front, limits);
      EntryMeans(file, dir, start, Offset(dir, count - 1), limits);
      var last :| EntryAt(file, dir, start, Offset(dir, count - 1), last, limits);
      EntriesSnoc(file, dir, start, front, last, limits);
      entries := front + [last];
    }
  }

  /** The walk accepts exactly the directories that are filled with plain entries, and returns their names. */
  lemma DirectoryMeans(file: string, dir: string, start: nat, count: nat, limits: Limits)
    requires IsBytes(file) && IsBytes(dir) && start <= |file|
    ensures DirectoryOk(file, dir, start, count, limits) <==>
      exists entries: seq<Entry> :: |entries| == count && Filled(file, dir, start, entries, limits)
    ensures forall entries: seq<Entry> :: |entries| == count && Filled(file, dir, start, entries, limits) ==>
      Names(dir, count) == NamesOf(entries)
  {
    hide EntryOk, Offset, Names, Tiles, Covers, TotalExpanded, Ranges, Place, PathTrie.Acceptable, EntriesAt, Records,
         NamesOf,
         ExpandedSum;
    if DirectoryOk(file, dir, start, count, limits) {
      var entries := EntriesFound(file, dir, start, count, limits);
      EntriesRead(file, dir, start, entries, limits);
      TilesMeans(Records(entries), start);
    }
    forall entries: seq<Entry> | |entries| == count && Filled(file, dir, start, entries, limits)
      ensures Names(dir, count) == NamesOf(entries) && DirectoryOk(file, dir, start, count, limits)
    {
      EntriesRead(file, dir, start, entries, limits);
      TilesMeans(Records(entries), start);
    }
  }

  // ----- the archive -----

  /** An end record stands here whose comment is the rest of the file. */
  ghost predicate EndAt(file: string, at: nat, comment: string)
  {
    && Text(file, at, ['P', 'K', 5 as char, 6 as char])
    && Two(file, at + 20, |comment|)
    && Text(file, at + 22, comment) && at + 22 + |comment| == |file|
  }

  /** It is for one disk, and counts so many entries in so many bytes of directory from this place on. */
  ghost predicate EndFields(file: string, at: nat, count: nat, size: nat, start: nat)
  {
    && Two(file, at + 4, 0) && Two(file, at + 6, 0)
    && Two(file, at + 8, count) && Two(file, at + 10, count) && count < 0xFFFF
    && Four(file, at + 12, size) && size < 0xFFFF_FFFF
    && Four(file, at + 16, start) && start < 0xFFFF_FFFF
  }

  /** The signatures of an end record, of a Zip64 end record, and of the locator of one. */
  predicate EndMark(file: string, at: nat)
  {
    || Text(file, at, ['P', 'K', 5 as char, 6 as char])
    || Text(file, at, ['P', 'K', 6 as char, 6 as char])
    || Text(file, at, ['P', 'K', 6 as char, 7 as char])
  }

  /** The whole file: records, directory, end record, nothing else, within the limits, and nothing in it that could
      be taken for another end. */
  ghost predicate LaidOut(file: string, end: nat, start: nat, comment: string, entries: seq<Entry>, limits: Limits)
  {
    && start <= end <= |file| <= limits.maxArchiveBytes
    && EndAt(file, end, comment) && EndFields(file, end, |entries|, end - start, start)
    && |entries| <= limits.maxEntries && end - start <= limits.maxDirectoryBytes
    && Filled(file, file[start..end], start, entries, limits)
    && (forall at | start <= at && at + 4 <= end :: !EndMark(file, at))
    && (end >= 20 ==> !Text(file, end - 20, ['P', 'K', 6 as char, 7 as char]))
    && (forall at, later | end < at :: !EndAt(file, at, later))
  }

  lemma EndMeans(file: string, at: nat)
    requires IsBytes(file)
    ensures IsEnd(file, at) <==> exists comment :: EndAt(file, at, comment)
    ensures IsEnd(file, at) ==> |file| <= at + 22 + 65535
  {
    hide Two, U16;
    if at + 22 <= |file| {
      SignatureMeans(file, at, 5, 6);
      TwoMeans(file, at + 20, |file| - at - 22);
      if IsEnd(file, at) {
        assert EndAt(file, at, file[at + 22..]);
      }
    }
  }

  lemma SignatureMeans(file: string, at: nat, third: nat, fourth: nat)
    requires third < 256 && fourth < 256
    ensures Signature(file, at, third, fourth) <==> Text(file, at, ['P', 'K', third as char, fourth as char])
  {
    if at + 4 <= |file| {
      var magic := file[at..at + 4];
      assert file[at] == magic[0] && file[at + 1] == magic[1] && file[at + 2] == magic[2] && file[at + 3] == magic[3];
    }
  }

  lemma LastEndMeans(file: string, end: nat)
    requires IsBytes(file)
    ensures IsLastEnd(file, end) <==>
      (exists comment :: EndAt(file, end, comment)) && forall at, later | end < at :: !EndAt(file, at, later)
  {
    hide IsEnd, EndAt;
    EndMeans(file, end);
    if IsLastEnd(file, end) {
      forall at: nat, later | end < at ensures !EndAt(file, at, later) {
        EndMeans(file, at);
        EndFits(file, at);
      }
    }
    if forall at, later | end < at :: !EndAt(file, at, later) {
      forall at | end < at <= |file| ensures !IsEnd(file, at) { EndMeans(file, at); }
    }
  }

  lemma EndFits(file: string, at: nat)
    ensures IsEnd(file, at) ==> at + 22 <= |file|
  {
  }

  lemma EndFieldsMean(file: string, end: nat)
    requires IsBytes(file) && IsEnd(file, end)
    ensures NoSentinels(file, end) && OneDisk(file, end) <==>
      && EndFields(file, end, EntryCount(file, end), DirectorySize(file, end), DirectoryStart(file, end))
      && (end >= 20 ==> !Text(file, end - 20, ['P', 'K', 6 as char, 7 as char]))
  {
    hide Two, Four, U16, U32, Signature, Text;
    if end >= 20 { SignatureMeans(file, end - 20, 6, 7); }
    TwoMeans(file, end + 4, 0);
    TwoMeans(file, end + 6, 0);
    TwoMeans(file, end + 8, EntryCount(file, end));
    TwoMeans(file, end + 10, EntryCount(file, end));
    FourMeans(file, end + 12, DirectorySize(file, end));
    FourMeans(file, end + 16, DirectoryStart(file, end));
  }

  lemma EndFieldsRead(file: string, end: nat, count: nat, size: nat, start: nat)
    requires IsBytes(file) && IsEnd(file, end) && EndFields(file, end, count, size, start)
    ensures count == EntryCount(file, end) && size == DirectorySize(file, end) && start == DirectoryStart(file, end)
  {
    hide Two, Four, U16, U32;
    TwoMeans(file, end + 10, count);
    FourMeans(file, end + 12, size);
    FourMeans(file, end + 16, start);
  }

  lemma MarksMean(file: string, start: nat, end: nat)
    requires start <= end <= |file|
    ensures NoSecondEnd(file[start..end]) <==> forall at | start <= at && at + 4 <= end :: !EndMark(file, at)
  {
    hide Signature, Text;
    var dir := file[start..end];
    forall at: nat | start <= at && at + 4 <= end
      ensures EndMark(file, at) <==>
        Signature(dir, at - start, 5, 6) || Signature(dir, at - start, 6, 6) || Signature(dir, at - start, 6, 7)
    {
      SignatureWithin(file, start, end, at, 5, 6);
      SignatureWithin(file, start, end, at, 6, 6);
      SignatureWithin(file, start, end, at, 6, 7);
    }
    forall i | 0 <= i < |dir| && i + 4 > |dir|
      ensures !Signature(dir, i, 5, 6) && !Signature(dir, i, 6, 6) && !Signature(dir, i, 6, 7)
    {
      SignatureFits(dir, i, 5, 6);
      SignatureFits(dir, i, 6, 6);
      SignatureFits(dir, i, 6, 7);
    }
    if NoSecondEnd(dir) {
      forall at: nat | start <= at && at + 4 <= end ensures !EndMark(file, at) {
        assert !Signature(dir, at - start, 5, 6);
      }
    }
    if forall at | start <= at && at + 4 <= end :: !EndMark(file, at) {
      forall i | 0 <= i < |dir|
        ensures !Signature(dir, i, 5, 6) && !Signature(dir, i, 6, 6) && !Signature(dir, i, 6, 7)
      {
        if i + 4 <= |dir| { assert !EndMark(file, start + i); }
      }
    }
  }

  lemma SignatureFits(dir: string, at: nat, third: nat, fourth: nat)
    requires third < 256 && fourth < 256
    ensures Signature(dir, at, third, fourth) ==> at + 4 <= |dir|
  {
  }

  lemma SignatureWithin(file: string, start: nat, end: nat, at: nat, third: nat, fourth: nat)
    requires start <= end <= |file| && third < 256 && fourth < 256 && start <= at && at + 4 <= end
    ensures Signature(file[start..end], at - start, third, fourth) <==>
      Text(file, at, ['P', 'K', third as char, fourth as char])
  {
    SignatureMeans(file, at, third, fourth);
    var dir := file[start..end];
    var i := at - start;
    assert dir[i] == file[at] && dir[i + 1] == file[at + 1] && dir[i + 2] == file[at + 2] && dir[i + 3] == file[at + 3];
  }

  /** An archive is accepted exactly when it is laid out from plain entries and nothing else; the names that the check
      returns are theirs. */
  lemma AcceptedIffLaidOut(file: string, end: nat, limits: Limits)
    requires IsBytes(file)
    ensures ArchiveOk(file, end, limits) <==>
      exists start: nat, comment, entries :: LaidOut(file, end, start, comment, entries, limits)
    ensures forall start: nat, comment, entries | LaidOut(file, end, start, comment, entries, limits) ::
      IsEnd(file, end) && DirectoryStart(file, end) == start && EntryCount(file, end) == |entries|
      && Names(file[start..end], |entries|) == NamesOf(entries)
  {
    hide IsLastEnd, IsEnd, EndAt, EndFields, NoSentinels, OneDisk, EndMark, Text, NoSecondEnd, Filled, Tiles,
         DirectoryOk,
         EntryCount, DirectorySize, DirectoryStart, Names, NamesOf;
    LastEndMeans(file, end);
    if ArchiveOk(file, end, limits) {
      assert IsEnd(file, end) by { LastIsEnd(file, end); }
      var start := DirectoryStart(file, end);
      var comment :| EndAt(file, end, comment);
      EndFieldsMean(file, end);
      EndMeans(file, end);
      EndFits(file, end);
      MarksMean(file, start, end);
      DirectoryMeans(file, file[start..end], start, EntryCount(file, end), limits);
      var entries: seq<Entry> :| |entries| == EntryCount(file, end)
        && Filled(file, file[start..end], start, entries, limits);
      assert LaidOut(file, end, start, comment, entries, limits);
    }
    forall start: nat, comment, entries | LaidOut(file, end, start, comment, entries, limits)
      ensures IsEnd(file, end) && DirectoryStart(file, end) == start && EntryCount(file, end) == |entries|
      ensures Names(file[start..end], |entries|) == NamesOf(entries) && ArchiveOk(file, end, limits)
    {
      LaidOutAccepted(file, end, start, comment, entries, limits);
    }
  }

  lemma LastIsEnd(file: string, end: nat)
    requires IsLastEnd(file, end)
    ensures IsEnd(file, end)
  {
  }

  lemma LaidOutAccepted(file: string, end: nat, start: nat, comment: string, entries: seq<Entry>, limits: Limits)
    requires IsBytes(file) && LaidOut(file, end, start, comment, entries, limits)
    ensures IsEnd(file, end) && DirectoryStart(file, end) == start && EntryCount(file, end) == |entries|
    ensures Names(file[start..end], |entries|) == NamesOf(entries) && ArchiveOk(file, end, limits)
  {
    hide IsLastEnd, IsEnd, EndAt, EndFields, NoSentinels, OneDisk, EndMark, Text, NoSecondEnd, Tiles, DirectoryOk,
         Filled,
         EntryCount, DirectorySize, DirectoryStart, Names, NamesOf;
    LastEndMeans(file, end);
    EndMeans(file, end);
    EndFieldsMean(file, end);
    EndFieldsRead(file, end, |entries|, end - start, start);
    MarksMean(file, start, end);
    DirectoryMeans(file, file[start..end], start, |entries|, limits);
    EntriesTakeSpace(entries, |entries|);
    assert Place(entries, |entries|) == end - start by { FilledSize(file, file[start..end], start, entries, limits); }
  }

  lemma FilledSize(file: string, dir: string, start: nat, entries: seq<Entry>, limits: Limits)
    requires Filled(file, dir, start, entries, limits)
    ensures Place(entries, |entries|) == |dir|
  {
  }

  lemma {:induction false} EntriesTakeSpace(entries: seq<Entry>, k: nat)
    requires k <= |entries|
    ensures Place(entries, k) >= 46 * k
  {
    if k > 0 { EntriesTakeSpace(entries, k - 1); }
  }
}
