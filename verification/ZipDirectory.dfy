/** The check of an archive's directory (PKWARE APPNOTE, sections 4.3.7, 4.3.12 and 4.3.16):
    the local records must cover the file up to the directory, every byte exactly once.
    A byte of the source is a char below 256; the file does not change while it is read. */
module ZipDirectory {
  import opened Options
  import PathTrie
  import opened Sequences

  datatype ArchiveError = LimitExceeded | InvalidArchive | UnsupportedZip64 | UnsupportedFeature | UnsafeEntryName

  datatype Limits = Limits(
    maxArchiveBytes: nat, maxDirectoryBytes: nat, maxEntries: nat, maxEntryBytes: nat,
    maxTotalDeclaredBytes: nat, maxExpansionRatio: nat, names: PathTrie.Limits)

  // ----- little-endian fields -----

  function U16(bytes: string, at: nat): nat
    requires at + 2 <= |bytes|
  {
    bytes[at] as nat + 256 * bytes[at + 1] as nat
  }

  function U32(bytes: string, at: nat): nat
    requires at + 4 <= |bytes|
  {
    U16(bytes, at) + 0x1_0000 * U16(bytes, at + 2)
  }

  predicate Signature(bytes: string, at: nat, third: nat, fourth: nat)
    requires third < 256 && fourth < 256
  {
    at + 4 <= |bytes| && bytes[at] == 'P' && bytes[at + 1] == 'K'
    && bytes[at + 2] == third as char && bytes[at + 3] == fourth as char
  }

  /** A field of two or four bytes counts them in base 256, the least significant byte first. */
  lemma FieldsAreLittleEndian(bytes: string, at: nat, a: nat, b: nat, c: nat, d: nat)
    requires at + 4 <= |bytes| && a < 256 && b < 256 && c < 256 && d < 256
    requires bytes[at..at + 4] == [a as char, b as char, c as char, d as char]
    ensures U16(bytes, at) == b * 256 + a
    ensures U32(bytes, at) == ((d * 256 + c) * 256 + b) * 256 + a
  {
    var field := bytes[at..at + 4];
    assert bytes[at] == field[0] && bytes[at + 1] == field[1];
    assert bytes[at + 2] == field[2] && bytes[at + 3] == field[3];
  }

  // ----- byte ranges -----

  datatype Range = Range(start: nat, end: nat)

  predicate Holds(r: Range, b: int)
  {
    r.start <= b < r.end
  }

  /** How many ranges hold a byte. */
  function Count(ranges: seq<Range>, b: int): nat
  {
    if |ranges| == 0 then 0 else (if Holds(ranges[0], b) then 1 else 0) + Count(ranges[1..], b)
  }

  /** Every byte from `start` up to `end` is in exactly one range, every other byte in none. */
  ghost predicate Tiles(ranges: seq<Range>, start: nat, end: nat)
  {
    forall b: int :: Count(ranges, b) == if start <= b < end then 1 else 0
  }

  predicate Before(a: Range, b: Range)
  {
    a.start < b.start || (a.start == b.start && a.end <= b.end)
  }

  predicate Ordered(ranges: seq<Range>)
  {
    forall i, j | 0 <= i < j < |ranges| :: Before(ranges[i], ranges[j])
  }

  function Insert(r: Range, ranges: seq<Range>): (all: seq<Range>)
    requires Ordered(ranges)
    ensures Ordered(all) && |all| == |ranges| + 1
    ensures forall x | x in all :: x == r || x in ranges
  {
    if |ranges| == 0 then [r]
    else if Before(r, ranges[0]) then [r] + ranges
    else
      var rest := Insert(r, ranges[1..]);
      assert forall x | x in rest :: Before(ranges[0], x);
      [ranges[0]] + rest
  }

  /** The ranges in ascending order. */
  function Sorted(ranges: seq<Range>): (all: seq<Range>)
    ensures Ordered(all) && |all| == |ranges|
    ensures forall x | x in all :: x in ranges
  {
    if |ranges| == 0 then [] else Insert(ranges[0], Sorted(ranges[1..]))
  }

  lemma {:induction false} InsertCounts(r: Range, ranges: seq<Range>, b: int)
    requires Ordered(ranges)
    ensures Count(Insert(r, ranges), b) == (if Holds(r, b) then 1 else 0) + Count(ranges, b)
    decreases |ranges|
  {
    if |ranges| > 0 && !Before(r, ranges[0]) {
      InsertCounts(r, ranges[1..], b);
      assert ([ranges[0]] + Insert(r, ranges[1..]))[1..] == Insert(r, ranges[1..]);
    } else {
      assert ([r] + ranges)[1..] == ranges;
    }
  }

  lemma {:induction false} SortedCounts(ranges: seq<Range>, b: int)
    ensures Count(Sorted(ranges), b) == Count(ranges, b)
    decreases |ranges|
  {
    if |ranges| > 0 {
      SortedCounts(ranges[1..], b);
      InsertCounts(ranges[0], Sorted(ranges[1..]), b);
    }
  }

  predicate NonEmpty(ranges: seq<Range>)
  {
    forall r | r in ranges :: r.start < r.end
  }

  /** Each range starts where the one before it ended. */
  predicate Chain(ranges: seq<Range>, start: nat, end: nat)
  {
    if |ranges| == 0 then start == end
    else ranges[0].start == start && Chain(ranges[1..], ranges[0].end, end)
  }

  lemma {:induction false} NoneBefore(ranges: seq<Range>, b: int)
    requires forall r | r in ranges :: b < r.start
    ensures Count(ranges, b) == 0
    decreases |ranges|
  {
    if |ranges| > 0 { NoneBefore(ranges[1..], b); }
  }

  lemma {:induction false} ChainTiles(ranges: seq<Range>, start: nat, end: nat)
    requires NonEmpty(ranges) && Chain(ranges, start, end)
    ensures start <= end && Tiles(ranges, start, end)
    decreases |ranges|
  {
    if |ranges| > 0 {
      assert ranges[0] in ranges;
      ChainTiles(ranges[1..], ranges[0].end, end);
    }
  }

  lemma {:induction false} TilesChain(ranges: seq<Range>, start: nat, end: nat)
    requires NonEmpty(ranges) && Ordered(ranges) && start <= end && Tiles(ranges, start, end)
    ensures Chain(ranges, start, end)
    decreases |ranges|
  {
    if |ranges| == 0 {
      assert Count(ranges, start) == 0;
    } else {
      var first, rest := ranges[0], ranges[1..];
      assert first in ranges;
      assert Count(ranges, first.start) >= 1 && Count(ranges, first.end - 1) >= 1;
      assert start <= first.start && first.end <= end;
      if start < first.start {
        NoneBefore(ranges, start);
      }
      assert Tiles(rest, first.end, end) by {
        forall b: int ensures Count(rest, b) == if first.end <= b < end then 1 else 0 {
          assert Count(ranges, b) == if start <= b < end then 1 else 0;
        }
      }
      TilesChain(rest, first.end, end);
    }
  }

  /** The check after sorting decides tiling. */
  lemma ChainIffTiles(ranges: seq<Range>, end: nat)
    requires NonEmpty(ranges)
    ensures Chain(Sorted(ranges), 0, end) <==> Tiles(ranges, 0, end)
  {
    var s := Sorted(ranges);
    forall b: int ensures Count(s, b) == Count(ranges, b) { SortedCounts(ranges, b); }
    if Chain(s, 0, end) {
      ChainTiles(s, 0, end);
    }
    if Tiles(ranges, 0, end) {
      assert Tiles(s, 0, end);
      TilesChain(s, 0, end);
    }
  }

  /** The loop of the source over the sorted ranges. */
  method CheckTiling(ranges: seq<Range>, directoryStart: nat) returns (tiled: bool)
    requires NonEmpty(ranges)
    ensures tiled <==> Tiles(ranges, 0, directoryStart)
  {
    hide Tiles, Sorted;
    ChainIffTiles(ranges, directoryStart);
    var sorted := Sorted(ranges);
    var previousEnd := 0;
    for i := 0 to |sorted|
      invariant Chain(sorted[i..], previousEnd, directoryStart) <==> Chain(sorted, 0, directoryStart)
    {
      if sorted[i].start != previousEnd {
        return false;
      }
      previousEnd := sorted[i].end;
      assert sorted[i..][1..] == sorted[i + 1..];
    }
    tiled := previousEnd == directoryStart;
  }

  // ----- extra fields -----

  /** ZIP64, name overrides and encryption metadata are refused; the fields fill the area. */
  predicate ExtraFieldsOk(bytes: string)
    decreases |bytes|
  {
    if |bytes| == 0 then true
    else
      && |bytes| >= 4
      && U16(bytes, 0) !in {1, 0x7075, 0x6375, 0x9901, 0x0017}
      && 4 + U16(bytes, 2) <= |bytes|
      && ExtraFieldsOk(bytes[4 + U16(bytes, 2)..])
  }

  method ExtraFields(bytes: string) returns (r: Result<(), ArchiveError>)
    ensures r.Ok? <==> ExtraFieldsOk(bytes)
  {
    var rest := bytes;
    while |rest| > 0
      invariant ExtraFieldsOk(rest) <==> ExtraFieldsOk(bytes)
      decreases |rest|
    {
      if |rest| < 4 {
        return Err(InvalidArchive);
      }
      var tag, length := U16(rest, 0), U16(rest, 2);
      if tag == 1 {
        return Err(UnsupportedZip64);
      }
      if tag in {0x7075, 0x6375, 0x9901, 0x0017} {
        return Err(UnsupportedFeature);
      }
      if 4 + length > |rest| {
        return Err(InvalidArchive);
      }
      rest := rest[4 + length..];
    }
    return Ok(());
  }

  // ----- one directory entry and its local record -----

  function NameLength(dir: string, at: nat): nat
    requires at + 46 <= |dir|
  {
    U16(dir, at + 28)
  }

  function ExtraLength(dir: string, at: nat): nat
    requires at + 46 <= |dir|
  {
    U16(dir, at + 30)
  }

  function CommentLength(dir: string, at: nat): nat
    requires at + 46 <= |dir|
  {
    U16(dir, at + 32)
  }

  function Next(dir: string, at: nat): (next: nat)
    ensures at <= next
  {
    if at + 46 <= |dir| then at + 46 + NameLength(dir, at) + ExtraLength(dir, at) + CommentLength(dir, at) else at
  }

  function RawName(dir: string, at: nat): string
  {
    if at + 46 <= |dir| && at + 46 + NameLength(dir, at) <= |dir|
    then dir[at + 46..at + 46 + NameLength(dir, at)] else ""
  }

  function Expanded(dir: string, at: nat): nat
  {
    if at + 46 <= |dir| then U32(dir, at + 24) else 0
  }

  const U16_MAX: nat := 0xFFFF
  const U32_MAX: nat := 0xFFFF_FFFF

  predicate SizesKnown(dir: string, at: nat)
    requires at + 46 <= |dir|
  {
    U32(dir, at + 20) != U32_MAX && U32(dir, at + 24) != U32_MAX && U32(dir, at + 42) != U32_MAX
      && U16(dir, at + 34) != U16_MAX
  }

  /** Deflate option bits and UTF-8 are the only flags; stored or deflated; one disk. */
  predicate FeaturesKnown(dir: string, at: nat)
    requires at + 46 <= |dir|
  {
    U16(dir, at + 8) in {0, 2, 4, 6, 0x800, 0x802, 0x804, 0x806} && U16(dir, at + 10) in {0, 8}
      && U16(dir, at + 34) == 0
  }

  predicate AttributesKnown(dir: string, at: nat, isDirectory: bool)
    requires at + 46 <= |dir|
  {
    var host, attributes := dir[at + 5], U32(dir, at + 38);
    var mode := attributes / 0x1000_0000 % 16;
    && (host == 0 as char || host == 3 as char)
    && (host == 3 as char ==> mode == 0 || mode == if isDirectory then 4 else 8)
    && attributes / 8 % 2 == 0
    && (attributes / 16 % 2 == 1 ==> isDirectory)
    && (isDirectory ==> U32(dir, at + 24) == 0 && U32(dir, at + 20) == 0)
  }

  predicate IsDirectoryName(raw: string)
  {
    raw != "" && raw[|raw| - 1] == '/'
  }

  /** The part of an entry that lies in the directory. */
  predicate CentralOk(dir: string, at: nat, limits: Limits)
  {
    && at + 46 <= |dir| && Signature(dir, at, 1, 2)
    && SizesKnown(dir, at)
    && at + 46 + NameLength(dir, at) + ExtraLength(dir, at) <= |dir|
    && ExtraFieldsOk(dir[at + 46 + NameLength(dir, at)..at + 46 + NameLength(dir, at) + ExtraLength(dir, at)])
    && Next(dir, at) <= |dir|
    && FeaturesKnown(dir, at) && AttributesKnown(dir, at, IsDirectoryName(RawName(dir, at)))
    && Expanded(dir, at) <= limits.maxEntryBytes
    && Expanded(dir, at) <= U32(dir, at + 20) * limits.maxExpansionRatio
  }

  /** The local header repeats the directory's fields. */
  predicate LocalHeaderOk(file: string, dir: string, at: nat)
    requires at + 46 <= |dir|
  {
    var local := U32(dir, at + 42);
    && local + 30 <= |file| && Signature(file, local, 3, 4)
    && U16(file, local + 4) == U16(dir, at + 6)
    && file[local + 10..local + 14] == dir[at + 12..at + 16]
    && U16(file, local + 6) == U16(dir, at + 8) && U16(file, local + 8) == U16(dir, at + 10)
    && U32(file, local + 14) == U32(dir, at + 16)
    && U32(file, local + 18) == U32(dir, at + 20) && U32(file, local + 22) == U32(dir, at + 24)
    && U16(file, local + 26) == NameLength(dir, at)
  }

  /** The bytes of a local record: its header, name, extra fields and data. */
  function RecordRange(file: string, dir: string, at: nat): (r: Range)
    ensures r.start < r.end
  {
    if at + 46 > |dir| || U32(dir, at + 42) + 30 > |file| then Range(0, 1)
    else
      var local := U32(dir, at + 42);
      Range(local, local + 30 + NameLength(dir, at) + U16(file, local + 28) + U32(dir, at + 20))
  }

  predicate LocalOk(file: string, dir: string, directoryStart: nat, at: nat)
    requires directoryStart <= |file| && at + 46 <= |dir|
  {
    var local := U32(dir, at + 42);
    && local + 30 <= directoryStart && LocalHeaderOk(file, dir, at)
    && RecordRange(file, dir, at).end <= directoryStart
    && var nameEnd := local + 30 + NameLength(dir, at);
    && file[local + 30..nameEnd] == RawName(dir, at)
    && ExtraFieldsOk(file[nameEnd..nameEnd + U16(file, local + 28)])
  }

  predicate EntryOk(file: string, dir: string, directoryStart: nat, at: nat, limits: Limits)
    requires directoryStart <= |file|
  {
    CentralOk(dir, at, limits) && LocalOk(file, dir, directoryStart, at)
  }

  // ----- the whole directory -----

  /** Where the k-th entry starts. */
  function Offset(dir: string, k: nat): nat
  {
    if k == 0 then 0 else Next(dir, Offset(dir, k - 1))
  }

  function Names(dir: string, count: nat): (names: seq<string>)
    ensures |names| == count
  {
    if count == 0 then [] else Names(dir, count - 1) + [RawName(dir, Offset(dir, count - 1))]
  }

  function Ranges(file: string, dir: string, count: nat): (ranges: seq<Range>)
    ensures |ranges| == count && NonEmpty(ranges)
  {
    if count == 0 then [] else Ranges(file, dir, count - 1) + [RecordRange(file, dir, Offset(dir, count - 1))]
  }

  function TotalExpanded(dir: string, count: nat): nat
  {
    if count == 0 then 0 else TotalExpanded(dir, count - 1) + Expanded(dir, Offset(dir, count - 1))
  }

  /** What a successful walk establishes, and all it requires. */
  ghost predicate DirectoryOk(file: string, dir: string, directoryStart: nat, count: nat, limits: Limits)
    requires directoryStart <= |file|
  {
    && (forall k | 0 <= k < count :: EntryOk(file, dir, directoryStart, Offset(dir, k), limits))
    && PathTrie.Acceptable(Names(dir, count), limits.names)
    && TotalExpanded(dir, count) <= limits.maxTotalDeclaredBytes
    && Offset(dir, count) == |dir|
    && Tiles(Ranges(file, dir, count), 0, directoryStart)
  }

  /** The checks of the source before the name is validated. */
  predicate HeaderOk(dir: string, at: nat)
  {
    at + 46 <= |dir| && Signature(dir, at, 1, 2) && SizesKnown(dir, at) && at + 46 + NameLength(dir, at) <= |dir|
  }

  method CheckHeader(dir: string, at: nat) returns (r: Result<string, ArchiveError>)
    ensures r.Ok? <==> HeaderOk(dir, at)
    ensures r.Ok? ==> r.value == RawName(dir, at)
  {
    if at + 46 > |dir| || !Signature(dir, at, 1, 2) {
      return Err(InvalidArchive);
    }
    if !SizesKnown(dir, at) {
      return Err(UnsupportedZip64);
    }
    if at + 46 + NameLength(dir, at) > |dir| {
      return Err(InvalidArchive);
    }
    return Ok(RawName(dir, at));
  }

  /** The checks of the source between the name and the local record. */
  method CheckCentral(dir: string, at: nat, limits: Limits) returns (r: Result<(), ArchiveError>)
    requires HeaderOk(dir, at)
    ensures r.Ok? <==> CentralOk(dir, at, limits)
  {
    hide ExtraFieldsOk, FeaturesKnown, AttributesKnown, SizesKnown, U32, U16;
    var nameEnd := at + 46 + NameLength(dir, at);
    if nameEnd + ExtraLength(dir, at) > |dir| {
      return Err(InvalidArchive);
    }
    r := ExtraFields(dir[nameEnd..nameEnd + ExtraLength(dir, at)]);
    if r.Err? {
      return r;
    }
    if Next(dir, at) > |dir| {
      return Err(InvalidArchive);
    }
    if !FeaturesKnown(dir, at) || !AttributesKnown(dir, at, IsDirectoryName(RawName(dir, at))) {
      return Err(UnsupportedFeature);
    }
    if Expanded(dir, at) > limits.maxEntryBytes {
      return Err(LimitExceeded);
    }
    var allowed := U32(dir, at + 20) * limits.maxExpansionRatio;
    if Expanded(dir, at) > allowed {
      return Err(LimitExceeded);
    }
    return Ok(());
  }

  /** The checks of the source on the local record. */
  method CheckLocal(file: string, dir: string, directoryStart: nat, at: nat, limits: Limits)
    returns (r: Result<Range, ArchiveError>)
    requires directoryStart <= |file| && CentralOk(dir, at, limits)
    ensures r.Ok? <==> LocalOk(file, dir, directoryStart, at)
    ensures r.Ok? ==> r.value == RecordRange(file, dir, at)
  {
    hide ExtraFieldsOk, CentralOk, LocalHeaderOk, U32, U16, NameLength;
    assert at + 46 <= |dir| by { CentralFits(dir, at, limits); }
    var local := U32(dir, at + 42);
    if local + 30 > directoryStart || !LocalHeaderOk(file, dir, at) {
      return Err(InvalidArchive);
    }
    var range := RecordRange(file, dir, at);
    if range.end > directoryStart {
      return Err(InvalidArchive);
    }
    var nameEnd := local + 30 + NameLength(dir, at);
    if file[local + 30..nameEnd] != RawName(dir, at) {
      return Err(InvalidArchive);
    }
    var extra := ExtraFields(file[nameEnd..nameEnd + U16(file, local + 28)]);
    if extra.Err? {
      return Err(extra.error);
    }
    return Ok(range);
  }

  lemma CentralFits(dir: string, at: nat, limits: Limits)
    requires CentralOk(dir, at, limits)
    ensures at + 46 <= |dir| && HeaderOk(dir, at)
  {
  }

  lemma {:induction false} NamesPrefix(dir: string, k: nat, count: nat)
    requires k <= count
    ensures Names(dir, count)[..k] == Names(dir, k)
    decreases count
  {
    hide RawName, Offset;
    if k < count {
      NamesPrefix(dir, k, count - 1);
      assert Names(dir, count)[..k] == Names(dir, count - 1)[..k];
    }
  }

  lemma {:induction false} TotalGrows(dir: string, k: nat, count: nat)
    requires k <= count
    ensures TotalExpanded(dir, k) <= TotalExpanded(dir, count)
    decreases count
  {
    hide Expanded, Offset;
    if k < count { TotalGrows(dir, k, count - 1); }
  }

  /** Entries up to k passed every check. */
  predicate Passed(file: string, dir: string, directoryStart: nat, k: nat, limits: Limits)
    requires directoryStart <= |file|
  {
    && (forall j | 0 <= j < k :: EntryOk(file, dir, directoryStart, Offset(dir, j), limits))
    && PathTrie.Acceptable(Names(dir, k), limits.names)
    && TotalExpanded(dir, k) <= limits.maxTotalDeclaredBytes
  }

  lemma PassedIsNeeded(file: string, dir: string, directoryStart: nat, k: nat, count: nat, limits: Limits)
    requires directoryStart <= |file| && k <= count
    ensures DirectoryOk(file, dir, directoryStart, count, limits) ==> Passed(file, dir, directoryStart, k, limits)
  {
    hide EntryOk, PathTrie.Acceptable, Offset, Tiles, Names, TotalExpanded, Ranges;
    NamesPrefix(dir, k, count);
    TotalGrows(dir, k, count);
    PathTrie.AcceptablePrefix(Names(dir, count), k, limits.names);
  }

  lemma PassedNext(file: string, dir: string, directoryStart: nat, k: nat, limits: Limits)
    requires directoryStart <= |file| && Passed(file, dir, directoryStart, k, limits)
    ensures PathTrie.Acceptable(Names(dir, k), limits.names)
    ensures Passed(file, dir, directoryStart, k + 1, limits) <==>
      && EntryOk(file, dir, directoryStart, Offset(dir, k), limits)
      && PathTrie.Acceptable(Names(dir, k + 1), limits.names)
      && TotalExpanded(dir, k + 1) <= limits.maxTotalDeclaredBytes
  {
    hide EntryOk, PathTrie.Acceptable, Offset, Names, TotalExpanded;
  }

  /** The directory walk of the source. */
  method WalkDirectory(file: string, dir: string, directoryStart: nat, count: nat, limits: Limits)
    returns (r: Result<seq<string>, ArchiveError>)
    requires directoryStart <= |file|
    ensures r.Ok? <==> DirectoryOk(file, dir, directoryStart, count, limits)
    ensures r.Ok? ==> r.value == Names(dir, count)
  {
    hide DirectoryOk, Passed, EntryOk, CentralOk, HeaderOk, LocalOk, RawName, Tiles, Expanded, Next;
    hide PathTrie.Acceptable, PathTrie.Represents, PathTrie.WellFormed, PathTrie.Compatible, PathTrie.AllFit,
      PathTrie.ValidIndex, PathTrie.Grown, PathTrie.Split, PathTrie.TrimSlashes;
    var at, total := 0, 0;
    var names: seq<string> := [];
    var ranges: seq<Range> := [];
    var index := new PathTrie.PathIndex();
    PathTrie.RepresentsNone();
    NothingPassed(file, dir, directoryStart, limits);
    for k := 0 to count
      invariant at == Offset(dir, k) && total == TotalExpanded(dir, k)
      invariant names == Names(dir, k) && ranges == Ranges(file, dir, k)
      invariant Passed(file, dir, directoryStart, k, limits)
      invariant fresh(index) && index.Valid()
      invariant PathTrie.Represents(index.tree, PathTrie.ParsedAll(names))
    {
      PassedIsNeeded(file, dir, directoryStart, k + 1, count, limits);
      PassedNext(file, dir, directoryStart, k, limits);
      EntryParts(file, dir, directoryStart, at, limits);
      var raw := CheckHeader(dir, at);
      if raw.Err? {
        return Err(raw.error);
      }
      NameDecides(index.tree, names, raw.value, limits);
      var tree := index.tree;
      var name := index.ValidateName(raw.value, limits.names);
      if name.Err? {
        return Err(if name.error == PathTrie.LimitExceeded then LimitExceeded else UnsafeEntryName);
      }
      var central := CheckCentral(dir, at, limits);
      if central.Err? {
        return Err(central.error);
      }
      total := total + Expanded(dir, at);
      if total > limits.maxTotalDeclaredBytes {
        return Err(LimitExceeded);
      }
      var range := CheckLocal(file, dir, directoryStart, at, limits);
      if range.Err? {
        return Err(range.error);
      }
      PathTrie.GrownRepresents(tree, PathTrie.ParsedAll(names), name.value);
      assert PathTrie.ParsedAll(names + [raw.value]) == PathTrie.ParsedAll(names) + [name.value];
      ranges := ranges + [range.value];
      names := names + [raw.value];
      at := Next(dir, at);
    }
    PassedAll(file, dir, directoryStart, count, limits);
    if at != |dir| {
      return Err(InvalidArchive);
    }
    var tiled := CheckTiling(ranges, directoryStart);
    if !tiled {
      return Err(InvalidArchive);
    }
    return Ok(names);
  }

  lemma NothingPassed(file: string, dir: string, directoryStart: nat, limits: Limits)
    requires directoryStart <= |file|
    ensures Passed(file, dir, directoryStart, 0, limits)
  {
  }

  lemma EntryParts(file: string, dir: string, directoryStart: nat, at: nat, limits: Limits)
    requires directoryStart <= |file|
    ensures EntryOk(file, dir, directoryStart, at, limits) <==>
      HeaderOk(dir, at) && CentralOk(dir, at, limits) && LocalOk(file, dir, directoryStart, at)
  {
  }

  lemma PassedAll(file: string, dir: string, directoryStart: nat, count: nat, limits: Limits)
    requires directoryStart <= |file| && Passed(file, dir, directoryStart, count, limits)
    ensures DirectoryOk(file, dir, directoryStart, count, limits) <==>
      Offset(dir, count) == |dir| && Tiles(Ranges(file, dir, count), 0, directoryStart)
  {
    hide EntryOk, PathTrie.Acceptable, Offset, Tiles, Names, TotalExpanded, Ranges;
  }

  lemma NameDecides(tree: PathTrie.Tree, names: seq<string>, raw: string, limits: Limits)
    requires PathTrie.Represents(tree, PathTrie.ParsedAll(names)) && PathTrie.Acceptable(names, limits.names)
    ensures PathTrie.Acceptable(names + [raw], limits.names) <==>
      PathTrie.WellFormed(raw, limits.names) && PathTrie.AllFit(tree, PathTrie.Parsed(raw))
  {
    hide PathTrie.Acceptable, PathTrie.Represents, PathTrie.WellFormed, PathTrie.Compatible, PathTrie.AllFit,
         PathTrie.Parsed;
    var all := names + [raw];
    assert all[..|names|] == names && all[..|names| + 1] == all;
    PathTrie.AcceptableSnoc(all, |names|, limits.names);
    PathTrie.AllFitMeans(tree, PathTrie.ParsedAll(names), PathTrie.Parsed(raw));
  }

  // ----- the end record -----

  const TAIL: nat := 65_557

  /** An end record whose comment runs to the end of the file. */
  predicate IsEnd(file: string, at: nat)
  {
    at + 22 <= |file| && Signature(file, at, 5, 6) && at + 22 + U16(file, at + 20) == |file|
  }

  function TailStart(file: string): nat
  {
    if |file| <= TAIL then 0 else |file| - TAIL
  }

  /** The last end record within the searched tail. */
  predicate IsLastEnd(file: string, at: nat)
  {
    IsEnd(file, at) && TailStart(file) <= at && forall k | at < k <= |file| :: !IsEnd(file, k)
  }

  method FindEnd(file: string) returns (r: Option<nat>)
    requires |file| >= 22
    ensures r.Some? ==> IsLastEnd(file, r.value)
    ensures r.None? ==> forall k | TailStart(file) <= k <= |file| :: !IsEnd(file, k)
  {
    var at := |file| - 22;
    while at >= TailStart(file)
      invariant TailStart(file) - 1 <= at <= |file| - 22
      invariant forall k | at < k <= |file| && 0 <= k :: !IsEnd(file, k)
      decreases at
    {
      if IsEnd(file, at) {
        return Some(at);
      }
      at := at - 1;
    }
    return None;
  }

  predicate NoSecondEnd(dir: string)
  {
    forall at | 0 <= at < |dir| :: !Signature(dir, at, 5, 6) && !Signature(dir, at, 6, 6) && !Signature(dir, at, 6, 7)
  }

  function EntryCount(file: string, end: nat): nat requires IsEnd(file, end) { U16(file, end + 10) }

  function DirectorySize(file: string, end: nat): nat requires IsEnd(file, end) { U32(file, end + 12) }

  function DirectoryStart(file: string, end: nat): nat requires IsEnd(file, end) { U32(file, end + 16) }

  predicate NoSentinels(file: string, end: nat)
    requires IsEnd(file, end)
  {
    && U16(file, end + 8) != U16_MAX && U16(file, end + 10) != U16_MAX
    && U32(file, end + 12) != U32_MAX && U32(file, end + 16) != U32_MAX
    && !(end >= 20 && Signature(file, end - 20, 6, 7))
  }

  predicate OneDisk(file: string, end: nat)
    requires IsEnd(file, end)
  {
    U16(file, end + 4) == 0 && U16(file, end + 6) == 0 && U16(file, end + 8) == U16(file, end + 10)
  }

  /** The end record points at a directory that runs up to it. */
  predicate EndOk(file: string, end: nat, limits: Limits)
    requires IsEnd(file, end)
  {
    && NoSentinels(file, end) && OneDisk(file, end)
    && DirectoryStart(file, end) + DirectorySize(file, end) == end
    && EntryCount(file, end) <= limits.maxEntries && DirectorySize(file, end) <= limits.maxDirectoryBytes
    && EntryCount(file, end) * 46 <= DirectorySize(file, end)
    && NoSecondEnd(file[DirectoryStart(file, end)..end])
  }

  ghost predicate ArchiveOk(file: string, end: nat, limits: Limits)
  {
    && |file| <= limits.maxArchiveBytes && IsLastEnd(file, end) && EndOk(file, end, limits)
    && DirectoryOk(file, file[DirectoryStart(file, end)..end], DirectoryStart(file, end), EntryCount(file, end), limits)
  }

  /** What the decoder gets to see: zeros up to the directory, the directory, and the end record without its
      comment. */
  function DecoderView(file: string, end: nat): string
    requires IsEnd(file, end) && DirectoryStart(file, end) <= end
  {
    Repeat(0 as char, DirectoryStart(file, end)) + file[DirectoryStart(file, end)..end + 20] + [0 as char, 0 as char]
  }

  /** The archive is in order, and the decoder counts the same entries. */
  ghost predicate Indexed(file: string, end: nat, limits: Limits, decoder: string -> Option<nat>)
  {
    ArchiveOk(file, end, limits) && decoder(DecoderView(file, end)) == Some(EntryCount(file, end))
  }

  /** The check of the source; the decoder is any function that counts the entries of an archive, or fails. */
  method Inspect(file: string, limits: Limits, decoder: string -> Option<nat>)
    returns (r: Result<seq<string>, ArchiveError>)
    ensures r.Ok? <==> exists end: nat :: Indexed(file, end, limits, decoder)
    ensures r.Ok? ==> (exists end: nat ::
      Indexed(file, end, limits, decoder)
        && r.value == Names(file[DirectoryStart(file, end)..end], EntryCount(file, end)))
  {
    hide DirectoryOk, NoSecondEnd, NoSentinels, OneDisk, Names, EntryCount, DirectorySize, DirectoryStart, IsEnd;
    if |file| > limits.maxArchiveBytes {
      return Err(LimitExceeded);
    }
    if |file| < 22 {
      TooShort(file);
      return Err(InvalidArchive);
    }
    var found := FindEnd(file);
    if found.None? {
      NoEnd(file);
      return Err(InvalidArchive);
    }
    var end := found.value;
    OneLastEnd(file, end);
    if !NoSentinels(file, end) {
      return Err(UnsupportedZip64);
    }
    if !OneDisk(file, end) {
      return Err(UnsupportedFeature);
    }
    var count, size, start := EntryCount(file, end), DirectorySize(file, end), DirectoryStart(file, end);
    if start + size != end {
      return Err(InvalidArchive);
    }
    if count > limits.maxEntries || size > limits.maxDirectoryBytes {
      return Err(LimitExceeded);
    }
    if count * 46 > size {
      return Err(InvalidArchive);
    }
    if !NoSecondEnd(file[start..end]) {
      return Err(InvalidArchive);
    }
    r := WalkDirectory(file, file[start..end], start, count, limits);
    if r.Err? {
      return;
    }
    assert ArchiveOk(file, end, limits);
    if decoder(DecoderView(file, end)) != Some(count) {
      return Err(InvalidArchive);
    }
    assert Indexed(file, end, limits, decoder);
  }

  /** The decoder, which tries earlier candidates when one fails, finds no other end record in its view, and no
      Zip64 one. */
  lemma OneEndInView(file: string, end: nat, limits: Limits, at: nat)
    requires ArchiveOk(file, end, limits) && at + 22 <= |DecoderView(file, end)|
    ensures Signature(DecoderView(file, end), at, 5, 6) <==> at == end
    ensures !Signature(DecoderView(file, end), at, 6, 6) && !Signature(DecoderView(file, end), at, 6, 7)
  {
    hide DirectoryOk, NoSentinels, OneDisk, U16, U32;
    var start := DirectoryStart(file, end);
    var view, dir := DecoderView(file, end), file[start..end];
    assert forall i | 0 <= i < start :: view[i] == 0 as char;
    assert forall i | start <= i < end + 20 :: view[i] == file[i];
    assert Signature(file, end, 5, 6);
    if start <= at && at + 4 <= end {
      assert forall i | at <= i < at + 4 :: view[i] == dir[i - start];
      assert !Signature(dir, at - start, 5, 6);
    }
  }

  lemma TooShort(file: string)
    requires |file| < 22
    ensures forall at: nat :: !IsEnd(file, at)
  {
  }

  lemma NoEnd(file: string)
    requires forall k | TailStart(file) <= k <= |file| :: !IsEnd(file, k)
    ensures forall end: nat :: !IsLastEnd(file, end)
  {
  }

  lemma OneLastEnd(file: string, end: nat)
    requires IsLastEnd(file, end)
    ensures end + 22 <= |file|
    ensures forall other: nat | IsLastEnd(file, other) :: other == end
  {
    forall other: nat | IsLastEnd(file, other) ensures other == end {
      assert IsEnd(file, other) && IsEnd(file, end);
      assert other + 22 <= |file|;
    }
  }

  /** An accepted archive has no hidden bytes: each byte of the file is in exactly one of the
      local records, the directory, or the end record. */
  lemma EveryByteHasOneOwner(file: string, end: nat, limits: Limits, b: nat)
    requires ArchiveOk(file, end, limits) && b < |file|
    ensures var start := DirectoryStart(file, end);
      Count([Range(end, |file|), Range(start, end)] + Ranges(file, file[start..end], EntryCount(file, end)), b) == 1
  {
    var start := DirectoryStart(file, end);
    var ranges := Ranges(file, file[start..end], EntryCount(file, end));
    var all := [Range(end, |file|), Range(start, end)] + ranges;
    assert all[1..] == [Range(start, end)] + ranges && all[1..][1..] == ranges;
    assert Count(ranges, b) == if b < start then 1 else 0;
  }

  /** The local records themselves do not overlap. */
  lemma RecordsAreDisjoint(ranges: seq<Range>, start: nat, end: nat, i: nat, j: nat, b: int)
    requires Tiles(ranges, start, end) && i < j < |ranges|
    ensures !(Holds(ranges[i], b) && Holds(ranges[j], b))
  {
    if Holds(ranges[i], b) && Holds(ranges[j], b) {
      CountTwo(ranges, i, j, b);
    }
  }

  lemma {:induction false} CountOne(ranges: seq<Range>, i: nat, b: int)
    requires i < |ranges| && Holds(ranges[i], b)
    ensures Count(ranges, b) >= 1
    decreases i
  {
    if i > 0 { CountOne(ranges[1..], i - 1, b); }
  }

  lemma {:induction false} CountTwo(ranges: seq<Range>, i: nat, j: nat, b: int)
    requires i < j < |ranges| && Holds(ranges[i], b) && Holds(ranges[j], b)
    ensures Count(ranges, b) >= 2
    decreases i
  {
    if i > 0 { CountTwo(ranges[1..], i - 1, j - 1, b); } else { CountOne(ranges[1..], j - 1, b); }
  }
}
