/** The two readers of an inventory: the virtual file that the archive library indexes, and the budgeted
    reader of one entry. */
module ArchiveReaders {
  import opened Options
  import opened Sequences

  const U64: nat := 0x1_0000_0000_0000_0000
  const CHUNK: nat := 8192

  // ----- the view of the directory -----

  datatype SeekFrom = Start(value: nat) | Current(offset: int) | End(offset: int)

  function Smaller(a: nat, b: nat): nat
  {
    if a <= b then a else b
  }

  /** While indexing, the file is zeros up to the directory and then the checked directory bytes. */
  class DirectoryView {
    const metadata: string
    const metadataStart: nat
    var position: nat

    constructor (metadata: string, metadataStart: nat)
      ensures this.metadata == metadata && this.metadataStart == metadataStart && position == 0
    {
      this.metadata, this.metadataStart, position := metadata, metadataStart, 0;
    }

    function View(): seq<char>
    {
      Repeat(0 as char, metadataStart) + metadata
    }

    /** Copies the next bytes of the view into the buffer; past the end there are none. */
    method Read(output: array<char>) returns (count: nat)
      modifies this, output
      ensures count ==
        Smaller(Smaller(output.Length, 8192), if old(position) < |View()| then |View()| - old(position) else 0)
      ensures position == old(position) + count
      ensures old(position) + count <= |View()| || count == 0
      ensures count > 0 ==> output[..count] == View()[old(position)..old(position) + count]
      ensures output[count..] == old(output[count..])
    {
      var end := metadataStart + |metadata|;
      count := Smaller(Smaller(output.Length, CHUNK), if position < end then end - position else 0);
      if count == 0 {
        return;
      }
      for i := 0 to count
        modifies output
        invariant forall j :: 0 <= j < i ==> output[j] == 0 as char
        invariant output[count..] == old(output[count..])
      {
        output[i] := 0 as char;
      }
      var finish := position + count;
      if finish > metadataStart {
        var begin := if position > metadataStart then position else metadataStart;
        var outStart, inStart := begin - position, begin - metadataStart;
        for i := outStart to count
          modifies output
          invariant forall j :: 0 <= j < outStart ==> output[j] == 0 as char
          invariant forall j :: outStart <= j < i ==> output[j] == metadata[inStart + j - outStart]
          invariant output[count..] == old(output[count..])
        {
          output[i] := metadata[inStart + i - outStart];
        }
      }
      PieceOfView(output[..count], position);
      position := finish;
    }

    /** Zeros up to the directory and its bytes from there on are a piece of the view. */
    lemma PieceOfView(piece: seq<char>, at: nat)
      requires at + |piece| <= |View()|
      requires forall j :: 0 <= j < |piece| ==>
        piece[j] == (if at + j < metadataStart then 0 as char else metadata[at + j - metadataStart])
      ensures piece == View()[at..at + |piece|]
    {
    }

    /** Moves to any place that a 64-bit position can express, also past the end. */
    method Seek(offset: SeekFrom) returns (r: Option<nat>)
      requires offset.Start? ==> offset.value < U64
      modifies this
      ensures var target := match offset
        case Start(value) => value
        case Current(step) => old(position) + step
        case End(step) => |View()| + step;
        if 0 <= target < U64 then r == Some(target) && position == target else r == None && position == old(position)
    {
      var target := match offset
        case Start(value) => value
        case Current(step) => position + step
        case End(step) => metadataStart + |metadata| + step;
      if target < 0 || target >= U64 {
        return None;
      }
      position := target;
      return Some(target);
    }
  }

  // ----- the budgets of an entry -----

  datatype Limits = Limits(maxEntryBytes: nat, maxObservedBytes: nat, maxExpansionRatio: nat)

  datatype ReadError = Interrupted | LimitExceeded | IntegrityFailure

  /** What the decompressor answers to a read. */
  datatype Outcome = Bytes(n: nat) | Fails(error: ReadError)

  datatype Entry = Entry(declared: nat, compressed: nat)

  /** The bytes seen of the entry, the bytes seen of all entries, and the last error. */
  datatype Meter = Meter(seen: nat, total: nat, failure: Option<ReadError>)

  predicate Within(limits: Limits, entry: Entry, seen: nat, total: nat)
  {
    && seen < U64 && total < U64 && entry.compressed * limits.maxExpansionRatio < U64
    && seen <= limits.maxEntryBytes && total <= limits.maxObservedBytes
    && seen <= entry.compressed * limits.maxExpansionRatio && seen <= entry.declared
  }

  /** The limits on an entry, each on its own; none of the sums and products leaves 64 bits. */
  lemma WithinMeans(limits: Limits, entry: Entry, seen: nat, total: nat)
    ensures Within(limits, entry, seen, total) <==>
      && entry.compressed * limits.maxExpansionRatio <= 18446744073709551615 && total <= 18446744073709551615
      && !(seen > limits.maxEntryBytes) && !(total > limits.maxObservedBytes)
      && !(seen > entry.compressed * limits.maxExpansionRatio) && !(seen > entry.declared)
  {
  }

  function Sum(outcomes: seq<Outcome>): nat
  {
    if |outcomes| == 0 then 0
    else Sum(outcomes[..|outcomes| - 1]) + (if outcomes[|outcomes| - 1].Bytes? then outcomes[|outcomes| - 1].n else 0)
  }

  predicate Clean(outcomes: seq<Outcome>)
  {
    forall i :: 0 <= i < |outcomes| ==> outcomes[i].Bytes?
  }

  class ObservedReader {
    const limits: Limits
    const entry: Entry
    var meter: Meter

    constructor (limits: Limits, entry: Entry, total: nat)
      ensures this.limits == limits && this.entry == entry && meter == Meter(0, total, None)
    {
      this.limits, this.entry, meter := limits, entry, Meter(0, total, None);
    }

    /** One read: the bytes count even when they break a limit; an error is remembered. */
    method Read(outcome: Outcome) returns (r: Option<nat>)
      modifies this
      ensures r.Some? <==>
        outcome.Bytes? && Within(limits, entry, old(meter).seen + outcome.n, old(meter).total + outcome.n)
      ensures r.Some? ==>
        && r.value == outcome.n
        && meter == old(meter).(seen := old(meter).seen + outcome.n, total := old(meter).total + outcome.n)
      ensures r.None? ==> meter.failure.Some? && meter.total >= old(meter).total
    {
      var error := Check(outcome);
      if error.Some? {
        meter := meter.(failure := error);
        return None;
      }
      return Some(outcome.n);
    }

    method Check(outcome: Outcome) returns (error: Option<ReadError>)
      modifies this
      ensures error.None? <==>
        outcome.Bytes? && Within(limits, entry, old(meter).seen + outcome.n, old(meter).total + outcome.n)
      ensures error.None? ==>
        meter == old(meter).(seen := old(meter).seen + outcome.n, total := old(meter).total + outcome.n)
      ensures meter.total >= old(meter).total
    {
      if outcome.Fails? {
        return Some(outcome.error);
      }
      if meter.seen + outcome.n >= U64 {
        return Some(LimitExceeded);
      }
      meter := meter.(seen := meter.seen + outcome.n);
      if meter.total + outcome.n >= U64 {
        return Some(LimitExceeded);
      }
      meter := meter.(total := meter.total + outcome.n);
      if meter.seen > limits.maxEntryBytes || meter.total > limits.maxObservedBytes {
        return Some(LimitExceeded);
      }
      var allowed := entry.compressed * limits.maxExpansionRatio;
      if allowed >= U64 || meter.seen > allowed {
        return Some(LimitExceeded);
      }
      if meter.seen > entry.declared {
        return Some(IntegrityFailure);
      }
      return None;
    }
  }

  datatype Verdict = Validated | Refused | Pending

  /** The drain stops at the first read of nothing. */
  ghost predicate StopsAt(drain: seq<Outcome>, k: nat)
  {
    && k < |drain| && drain[k] == Bytes(0)
    && forall i :: 0 <= i < k ==> drain[i].Bytes? && drain[i].n > 0
  }

  /** The drain stops at k with exactly the declared bytes, all within the budgets. */
  ghost predicate Exact(limits: Limits, entry: Entry, observed: nat, parse: seq<Outcome>, drain: seq<Outcome>, k: nat)
  {
    && StopsAt(drain, k) && Sum(parse) + Sum(drain[..k]) == entry.declared
    && Within(limits, entry, entry.declared, observed + entry.declared)
  }

  /** Lets the parser read as it likes, then drains the rest; the entry is validated only if every read was
      good and the bytes are exactly the declared ones. */
  method Consume(limits: Limits, entry: Entry, observed: nat, parse: seq<Outcome>, parsed: bool, drain: seq<Outcome>)
    returns (verdict: Verdict, after: nat)
    ensures verdict == Validated <==>
      && parsed && Clean(parse)
      && exists k: nat :: Exact(limits, entry, observed, parse, drain, k)
    ensures verdict == Validated ==> after == observed + entry.declared
    ensures after >= observed
  {
    hide Within, Sum;
    NothingYet(parse, drain);
    var reader := new ObservedReader(limits, entry, observed);
    var clean := true;
    for i := 0 to |parse|
      invariant reader.limits == limits && reader.entry == entry && reader.meter.total >= observed
      invariant clean ==> reader.meter == Meter(Sum(parse[..i]), observed + Sum(parse[..i]), None) && Clean(parse[..i])
      invariant !clean ==> reader.meter.failure.Some?
      invariant !clean ==> !Clean(parse) || !Within(limits, entry, Sum(parse), observed + Sum(parse))
    {
      SumSnoc(parse, i);
      SumGrows(parse, i + 1);
      LessIsWithin(limits, entry, observed, Sum(parse[..i + 1]), Sum(parse));
      var read := reader.Read(parse[i]);
      clean := clean && read.Some?;
    }
    assert parse[..|parse|] == parse;
    forall k: nat | Exact(limits, entry, observed, parse, drain, k)
      ensures Within(limits, entry, Sum(parse), observed + Sum(parse))
    {
      PartsWithin(limits, entry, observed, parse, drain, 0, k);
    }
    if reader.meter.failure.Some? || !parsed {
      return Refused, reader.meter.total;
    }
    for i := 0 to |drain|
      invariant reader.limits == limits && reader.entry == entry
      invariant reader.meter == Meter(Sum(parse) + Sum(drain[..i]), observed + Sum(parse) + Sum(drain[..i]), None)
      invariant forall j :: 0 <= j < i ==> drain[j].Bytes? && drain[j].n > 0
    {
      SumSnoc(drain, i);
      forall k: nat | Exact(limits, entry, observed, parse, drain, k)
        ensures i <= k && drain[i].Bytes?
        ensures Within(limits, entry, Sum(parse) + Sum(drain[..i + 1]), observed + Sum(parse) + Sum(drain[..i + 1]))
      {
        PartsWithin(limits, entry, observed, parse, drain, i, k);
      }
      var read := reader.Read(drain[i]);
      if read.None? {
        return Refused, reader.meter.total;
      }
      if read.value == 0 {
        assert StopsAt(drain, i) && forall k: nat :: StopsAt(drain, k) ==> k == i;
        assert Exact(limits, entry, observed, parse, drain, i) <==> reader.meter.seen == entry.declared;
        return if reader.meter.seen == entry.declared then Validated else Refused, reader.meter.total;
      }
    }
    return Pending, reader.meter.total;
  }

  lemma NothingYet(parse: seq<Outcome>, drain: seq<Outcome>)
    ensures Sum(parse[..0]) == 0 && Sum(drain[..0]) == 0
  {
  }

  lemma SumSnoc(outcomes: seq<Outcome>, i: nat)
    requires i < |outcomes|
    ensures Sum(outcomes[..i + 1]) == Sum(outcomes[..i]) + (if outcomes[i].Bytes? then outcomes[i].n else 0)
    ensures Clean(outcomes[..i + 1]) <==> Clean(outcomes[..i]) && outcomes[i].Bytes?
  {
    assert outcomes[..i + 1][..i] == outcomes[..i];
    assert outcomes[..i + 1] == outcomes[..i] + [outcomes[i]];
  }

  lemma LessIsWithin(limits: Limits, entry: Entry, observed: nat, part: nat, whole: nat)
    requires part <= whole
    ensures Within(limits, entry, whole, observed + whole) ==> Within(limits, entry, part, observed + part)
  {
  }

  lemma {:induction false} SumGrows(outcomes: seq<Outcome>, i: nat)
    requires i <= |outcomes|
    ensures Sum(outcomes[..i]) <= Sum(outcomes)
    decreases |outcomes| - i
  {
    if i == |outcomes| {
      assert outcomes[..i] == outcomes;
    } else {
      SumSnoc(outcomes, i);
      SumGrows(outcomes, i + 1);
    }
  }

  /** If the whole entry is within its budgets then so is every part of it. */
  lemma PartsWithin(limits: Limits, entry: Entry, observed: nat, parse: seq<Outcome>, drain: seq<Outcome>, i: nat,
                    k: nat)
    requires Exact(limits, entry, observed, parse, drain, k)
    ensures Within(limits, entry, Sum(parse), observed + Sum(parse))
    ensures i < |drain| && i <= k ==>
      && drain[i].Bytes?
      && Within(limits, entry, Sum(parse) + Sum(drain[..i + 1]), observed + Sum(parse) + Sum(drain[..i + 1]))
  {
    if i < k {
      assert drain[..k][..i + 1] == drain[..i + 1];
      SumGrows(drain[..k], i + 1);
    } else if i == k {
      SumSnoc(drain, k);
    }
  }
}
