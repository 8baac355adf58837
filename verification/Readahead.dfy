/** How far a stream reader may read ahead, and how much of a file is warmed up at the start. */
module Readahead {
  import opened Int64
  import opened SeekReader
  import Positional

  const MIB := 0x10_0000
  const DEFAULT := 16 * MIB
  const MIN_CONCURRENT := 4 * MIB
  const SHARE_RATIO := 4

  /** Go's integer division, which truncates toward zero. */
  function Quotient(a: int, b: int): int
    requires b > 0
  {
    if a >= 0 then a / b else -(-a / b)
  }

  function AtLeastOne(readers: int): (r: int)
    ensures r >= 1
  {
    if readers < 1 then 1 else readers
  }

  function Least(a: int, b: int): int {
    if a < b then a else b
  }

  function Greatest(a: int, b: int): int {
    if a > b then a else b
  }

  /** The least read-ahead worth having for a piece length. */
  function MinFor(pieceLength: int): (m: int)
    ensures MIN_CONCURRENT <= m <= DEFAULT
  {
    var two := Wrap(pieceLength * 2);
    Least(if pieceLength > 0 && two > MIN_CONCURRENT then two else MIN_CONCURRENT, DEFAULT)
  }

  function BoundedReadahead(pieceLength: int, cacheCap: int, activeReaders: int): int {
    var readers := AtLeastOne(activeReaders);
    var perReader := if cacheCap > 0 then cacheCap / readers else 0;
    if readers > 1 && cacheCap > 0 && perReader <= 0 then 0
    else
      var ra := if readers > 1 && cacheCap > 0
                then Least(Least(DEFAULT, Greatest(perReader / SHARE_RATIO, MinFor(pieceLength))), perReader)
                else DEFAULT;
      if cacheCap > 0 && cacheCap < ra then cacheCap else ra
  }

  datatype StreamConfig = StreamConfig(minMB: int, maxMB: int)

  /** A configured number of mebibytes in bytes, with a fallback for values that are not positive. */
  function BoundBytes(valueMB: int, fallbackMB: int): int {
    Wrap((if valueMB <= 0 then fallbackMB else valueMB) * MIB)
  }

  function AdaptiveReadahead(cacheCap: int, torrents: int, cfg: StreamConfig): int {
    if cacheCap <= 0 then 0
    else
      var minRA := BoundBytes(cfg.minMB, 4);
      var maxRA := Greatest(BoundBytes(cfg.maxMB, 64), minRA);
      var target := if torrents > 2 then Quotient(Wrap(maxRA * 2), torrents) else maxRA;
      Least(Greatest(target, minRA), cacheCap)
  }

  function InitialReadahead(
    pieceLength: int, cacheCap: int, activeReaders: int, torrents: int, cfg: StreamConfig): int
  {
    var ra := AdaptiveReadahead(cacheCap, torrents, cfg);
    if cacheCap <= 0 || ra <= 0 then BoundedReadahead(pieceLength, cacheCap, activeReaders)
    else
      var perReader := cacheCap / AtLeastOne(activeReaders);
      if perReader <= 0 then 0 else Least(ra, perReader)
  }

  // ---- arithmetic of shares ---------------------------------------------------------------------------

  /** Shares do not exceed the whole. */
  lemma ShareBound(whole: nat, parts: int)
    requires parts >= 1
    ensures 0 <= whole / parts <= whole
    ensures whole / parts * parts <= whole
  {
    var q, r := whole / parts, whole % parts;
    assert whole == q * parts + r;
    if q < 0 {
      Positional.MulMonotone(q, -1, parts);
    } else {
      Positional.MulMonotone(1, parts, q);
    }
  }

  lemma ShareIsPositive(whole: nat, parts: int)
    requires parts >= 1
    ensures whole / parts > 0 <==> whole >= parts
  {
    ShareBound(whole, parts);
    var q, r := whole / parts, whole % parts;
    assert whole == q * parts + r;
    if q > 0 {
      Positional.MulMonotone(1, q, parts);
    }
  }

  lemma MoreForFewer(whole: nat, few: int, many: int)
    requires 1 <= few <= many
    ensures whole / many <= whole / few
  {
    var p, q := whole / many, whole / few;
    ShareBound(whole, many);
    Positional.MulMonotone(few, many, p);
    assert whole == q * few + whole % few;
    if p > q {
      Positional.MulGap(q, p, few);
    }
  }

  lemma MoreOfMore(small: nat, large: nat, parts: int)
    requires parts >= 1 && small <= large
    ensures small / parts <= large / parts
  {
    var p, q := small / parts, large / parts;
    assert small == p * parts + small % parts;
    assert large == q * parts + large % parts;
    if p > q {
      Positional.MulGap(q, p, parts);
    }
  }

  // ---- the budget ----------------------------------------------------------------------------------------

  /** With a cache, all readers together never read ahead beyond its capacity. */
  lemma BoundedStaysInBudget(pieceLength: int, cacheCap: int, readers: int)
    requires cacheCap > 0
    ensures var ra := BoundedReadahead(pieceLength, cacheCap, readers);
            0 <= ra <= DEFAULT && ra * AtLeastOne(readers) <= cacheCap
  {
    var ra, n := BoundedReadahead(pieceLength, cacheCap, readers), AtLeastOne(readers);
    ShareBound(cacheCap, n);
    Positional.MulMonotone(ra, if n > 1 then cacheCap / n else cacheCap, n);
  }

  /** The same for the first read-ahead of a playback, whatever the configuration, even where its
      64-bit arithmetic overflows. */
  lemma InitialStaysInBudget(pieceLength: int, cacheCap: int, readers: int, torrents: int, cfg: StreamConfig)
    requires cacheCap > 0
    ensures var ra := InitialReadahead(pieceLength, cacheCap, readers, torrents, cfg);
            0 <= ra && ra * AtLeastOne(readers) <= cacheCap
  {
    var ra, n := InitialReadahead(pieceLength, cacheCap, readers, torrents, cfg), AtLeastOne(readers);
    BoundedStaysInBudget(pieceLength, cacheCap, readers);
    ShareBound(cacheCap, n);
    if AdaptiveReadahead(cacheCap, torrents, cfg) > 0 {
      Positional.MulMonotone(ra, cacheCap / n, n);
    }
  }

  /** A reader is left without read-ahead exactly when there is less than a byte of cache for it. */
  lemma StarvedIff(pieceLength: int, cacheCap: int, readers: int)
    ensures BoundedReadahead(pieceLength, cacheCap, readers) == 0 <==> 0 < cacheCap < AtLeastOne(readers)
  {
    if cacheCap > 0 {
      ShareIsPositive(cacheCap, AtLeastOne(readers));
    }
  }

  /** Every reader gets the room that its pieces ask for, or its whole share of the cache where that is
      less; more than that takes no more than a quarter of the share. */
  lemma EnoughForPieces(pieceLength: int, cacheCap: int, readers: int)
    requires cacheCap > 0
    ensures var ra, share := BoundedReadahead(pieceLength, cacheCap, readers), cacheCap / AtLeastOne(readers);
            && ra >= Least(MinFor(pieceLength), share)
            && (readers > 1 && ra > MinFor(pieceLength) ==> ra <= share / SHARE_RATIO)
  {
    ShareBound(cacheCap, AtLeastOne(readers));
  }

  /** That room is two pieces, 4 MiB at least and 16 MiB at most, exactly when doubling the length does
      not overflow; otherwise it falls back to the least. */
  lemma RoomIsTwoPiecesIff(pieceLength: int)
    requires InInt64(pieceLength)
    ensures MinFor(pieceLength) == Least(Greatest(pieceLength * 2, MIN_CONCURRENT), DEFAULT)
            <==> pieceLength < 0x4000_0000_0000_0000
    ensures pieceLength >= 0x4000_0000_0000_0000 ==> MinFor(pieceLength) == MIN_CONCURRENT
  {
  }

  /** More readers never get more each. */
  lemma FallsWithReaders(pieceLength: int, cacheCap: int, few: int, many: int)
    requires few <= many
    ensures BoundedReadahead(pieceLength, cacheCap, many) <= BoundedReadahead(pieceLength, cacheCap, few)
  {
    if cacheCap > 0 {
      var p, q := AtLeastOne(few), AtLeastOne(many);
      MoreForFewer(cacheCap, p, q);
      ShareBound(cacheCap, q);
      ShareBound(cacheCap, p);
      assert cacheCap / q / SHARE_RATIO <= cacheCap / p / SHARE_RATIO;
    }
  }

  /** A larger cache never gives less. */
  lemma RisesWithCapacity(pieceLength: int, small: int, large: int, readers: int)
    requires 0 < small <= large
    ensures BoundedReadahead(pieceLength, small, readers) <= BoundedReadahead(pieceLength, large, readers)
  {
    var n := AtLeastOne(readers);
    MoreOfMore(small, large, n);
    ShareBound(small, n);
    ShareBound(large, n);
    assert small / n / SHARE_RATIO <= large / n / SHARE_RATIO;
  }

  /** A configured least read-ahead in mebibytes. */
  function MinMB(minMB: int): int {
    if minMB <= 0 then 4 else minMB
  }

  /** The adaptive read-ahead keeps the configured least, as converted, and the cache's capacity. */
  lemma AdaptiveWithinBounds(cacheCap: int, torrents: int, cfg: StreamConfig)
    requires cacheCap > 0
    ensures var ra := AdaptiveReadahead(cacheCap, torrents, cfg);
            Least(BoundBytes(cfg.minMB, 4), cacheCap) <= ra <= cacheCap
  {
  }

  /** It keeps the least that was meant, for every cache, number of torrents and upper bound, exactly
      when that many bytes are a 64-bit number. */
  lemma MinimumKeptIff(minMB: int)
    ensures (forall cap, torrents, maxMB :: 0 < cap < TWO63 ==>
               Least(MinMB(minMB) * MIB, cap) <= AdaptiveReadahead(cap, torrents, StreamConfig(minMB, maxMB)))
            <==> InInt64(MinMB(minMB) * MIB)
  {
    var bytes := MinMB(minMB) * MIB;
    if InInt64(bytes) {
      assert BoundBytes(minMB, 4) == bytes;
    } else {
      var cap := TWO63 - 1;
      assert BoundBytes(minMB, 4) == Wrap(bytes);
      WrapIsWhole(MinMB(minMB));
      assert AdaptiveReadahead(cap, 1, StreamConfig(minMB, 1)) < cap;
    }
  }

  /** A wrapped number of mebibytes is a number of mebibytes, so it is not the largest number. */
  lemma WrapIsWhole(mb: int)
    ensures Wrap(mb * MIB) < TWO63 - 1
  {
    var q := (mb * MIB + TWO63) / TWO64;
    assert Wrap(mb * MIB) == (mb - q * (TWO64 / MIB)) * MIB;
  }

  // ---- what exactly a reader gets ---------------------------------------------------------------------------

  /** Whether `v` fits into one of `parts` shares. */
  lemma FitsShareIff(v: int, whole: nat, parts: int)
    requires parts >= 1
    ensures v <= whole / parts <==> v * parts <= whole
  {
    ShareBound(whole, parts);
    var q := whole / parts;
    assert whole == q * parts + whole % parts;
    if v <= q {
      Positional.MulMonotone(v, q, parts);
    } else {
      Positional.MulGap(q, v, parts);
    }
  }

  /** Without a cache 16 MiB. With one, the most that is within 16 MiB, that the cache holds for all readers
      at once, and that among several readers is either the room for a reader's pieces or a quarter of
      its share. */
  lemma BoundedIsGreatest(pieceLength: int, cacheCap: int, readers: int, v: int)
    ensures cacheCap <= 0 ==> BoundedReadahead(pieceLength, cacheCap, readers) == 16 * 0x10_0000
    ensures cacheCap > 0 && v >= 0 ==>
              (v <= BoundedReadahead(pieceLength, cacheCap, readers) <==>
                 && v <= 16 * 0x10_0000 && v <= cacheCap
                 && (readers > 1 ==> v * readers <= cacheCap
                                     && (v <= MinFor(pieceLength) || 4 * v * readers <= cacheCap)))
  {
    if cacheCap > 0 && readers > 1 {
      FitsShareIff(v, cacheCap, readers);
      FitsShareIff(4 * v, cacheCap, readers);
      ShareBound(cacheCap, readers);
      assert v <= cacheCap / readers / 4 <==> 4 * v <= cacheCap / readers;
    }
  }

  /** The most that the cache holds and that is either the configured least, or within the configured
      most; among more than two torrents, with each torrent's part of twice the most. */
  lemma AdaptiveIsGreatest(cacheCap: int, torrents: int, cfg: StreamConfig, v: int)
    requires cacheCap > 0 && v >= 0
    ensures var least := (if cfg.minMB <= 0 then 4 else cfg.minMB) * 0x10_0000;
            var most := (if cfg.maxMB <= 0 then 64 else cfg.maxMB) * 0x10_0000;
            2 * least < TWO63 && 2 * most < TWO63 ==>
              (v <= AdaptiveReadahead(cacheCap, torrents, cfg) <==>
                 && v <= cacheCap
                 && (v <= least || (if torrents > 2 then v * torrents <= 2 * most else v <= most)))
  {
    var least := (if cfg.minMB <= 0 then 4 else cfg.minMB) * 0x10_0000;
    var most := (if cfg.maxMB <= 0 then 64 else cfg.maxMB) * 0x10_0000;
    if 2 * least < TWO63 && 2 * most < TWO63 {
      AdaptiveUnwrapped(cacheCap, torrents, cfg, least, most);
      if torrents > 2 {
        PartOrLeast(v, least, most, torrents);
      }
    }
  }

  lemma AdaptiveUnwrapped(cacheCap: int, torrents: int, cfg: StreamConfig, least: int, most: int)
    requires cacheCap > 0 && 0 < 2 * least < TWO63 && 0 < 2 * most < TWO63
    requires least == (if cfg.minMB <= 0 then 4 else cfg.minMB) * 0x10_0000
    requires most == (if cfg.maxMB <= 0 then 64 else cfg.maxMB) * 0x10_0000
    ensures var whole := Greatest(most, least);
            AdaptiveReadahead(cacheCap, torrents, cfg)
            == Least(Greatest(if torrents > 2 then 2 * whole / torrents else whole, least), cacheCap)
  {
    assert BoundBytes(cfg.minMB, 4) == least && BoundBytes(cfg.maxMB, 64) == most;
  }

  /** Where the least is more than the most, a part of twice as much of either is less than the least. */
  lemma PartOrLeast(v: int, least: int, most: int, torrents: int)
    requires v >= 0 && least > 0 && most > 0 && torrents > 2
    ensures v <= Greatest(2 * Greatest(most, least) / torrents, least) <==> v <= least || v * torrents <= 2 * most
  {
    FitsShareIff(v, 2 * Greatest(most, least), torrents);
    if most < least && v > least {
      Positional.MulMonotone(3, torrents, v);
    }
  }

  /** The first read-ahead is the most within the adaptive one that the cache holds for all readers. */
  lemma InitialIsGreatest(pieceLength: int, cacheCap: int, readers: int, torrents: int, cfg: StreamConfig, v: int)
    requires cacheCap > 0 && AdaptiveReadahead(cacheCap, torrents, cfg) > 0 && v >= 0
    ensures v <= InitialReadahead(pieceLength, cacheCap, readers, torrents, cfg) <==>
              v <= AdaptiveReadahead(cacheCap, torrents, cfg) && v * Greatest(readers, 1) <= cacheCap
  {
    FitsShareIff(v, cacheCap, AtLeastOne(readers));
    ShareBound(cacheCap, AtLeastOne(readers));
  }

  // ---- warming up the start of a file ---------------------------------------------------------------------

  const WARMUP_DEFAULT := 8 * MIB
  const HEAVY_FILE := 80 * 1024 * MIB
  const WARMUP_HEAVY := 32 * MIB
  const WARMUP_SHARE := 8
  const WARMUP_HEAVY_SHARE := 2

  function WarmupTarget(fileSize: int, startOffset: int, cacheCap: int): int {
    var remaining := fileSize - startOffset;
    if remaining <= 0 then 0
    else
      var heavy := cacheCap > 0 && fileSize >= HEAVY_FILE;
      var most := if heavy then WARMUP_HEAVY else WARMUP_DEFAULT;
      var ratio := if heavy then WARMUP_HEAVY_SHARE else WARMUP_SHARE;
      var share := if cacheCap / ratio <= 0 then cacheCap else cacheCap / ratio;
      var target := if cacheCap > 0 && share < most then share else most;
      var sane := if target <= 0 || target > WARMUP_HEAVY then WARMUP_DEFAULT else target;
      Least(sane, remaining)
  }

  /** Something is warmed up exactly when something is left to read; it is never more than what is
      left, than the fixed maximum, or than the cache holds. */
  lemma WarmupIsBounded(fileSize: int, startOffset: int, cacheCap: int)
    ensures var target := WarmupTarget(fileSize, startOffset, cacheCap);
            && (target > 0 <==> startOffset < fileSize)
            && target <= Greatest(fileSize - startOffset, 0)
            && target <= WARMUP_HEAVY
            && (fileSize < HEAVY_FILE ==> target <= WARMUP_DEFAULT)
            && (cacheCap > 0 ==> target <= cacheCap)
  {
  }

  /** The target is the most within what is left of the file, within 8 MiB, or 32 MiB for a file of 80 GiB
      behind a cache, and within an eighth of the cache, or half of it for such a file; a cache too small
      for that part counts whole. */
  lemma WarmupIsGreatest(fileSize: int, startOffset: int, cacheCap: int, v: int)
    requires v >= 1
    ensures var heavy := cacheCap > 0 && fileSize >= 80 * 1024 * 0x10_0000;
            var parts := if heavy then 2 else 8;
            v <= WarmupTarget(fileSize, startOffset, cacheCap) <==>
              && v <= fileSize - startOffset
              && v <= (if heavy then 32 else 8) * 0x10_0000
              && (cacheCap > 0 ==> v * parts <= cacheCap || (cacheCap < parts && v <= cacheCap))
  {
  }

  const COPY_BUFFER := 0x4_0000

  /** The reader stands behind a Read that ended with this status. */
  ghost predicate EndedWith(c: Content, offset: nat, status: Status) {
    exists o: nat, n: nat :: o + c.Delivered(o, n) == offset && c.status(o, n) == status
  }

  /** A Read at this offset succeeds without a byte. */
  ghost predicate Dry(c: Content, offset: nat) {
    exists n: nat :: n > 0 && c.Delivered(offset, n) == 0 && c.status(offset, n) == Fine
  }

  /** Reads until the target is reached, a read fails or a read delivers nothing. */
  method ReadStartupWarmup(reader: Source, target: int) returns (readBytes: nat, status: Status)
    modifies reader
    ensures readBytes <= Greatest(target, 0)
    ensures reader.offset == old(reader.offset) + readBytes && reader.seeks == old(reader.seeks)
    ensures status == Fine ==> readBytes >= target || Dry(reader.content, reader.offset)
    ensures status != Fine ==> EndedWith(reader.content, reader.offset, status)
  {
    readBytes, status := 0, Fine;
    while readBytes < target
      invariant readBytes <= Greatest(target, 0) && status == Fine
      invariant reader.offset == old(reader.offset) + readBytes && reader.seeks == old(reader.seeks)
    {
      var readSize: nat := Least(COPY_BUFFER, target - readBytes);
      ghost var before := reader.offset;
      var data;
      data, status := reader.Read(readSize);
      readBytes := readBytes + |data|;
      if status != Fine {
        assert before + reader.content.Delivered(before, readSize) == reader.offset;
        return;
      }
      if |data| == 0 {
        return;
      }
    }
  }

  datatype Outcome =
    Skipped | RestoreFailed | RequestCanceled | TimeoutReached | EndOfFile | Success | ShortRead | ReadError

  /** The warm-up reads ahead and puts the reader back where it was, if the reader can seek there. An
      honest reader's warm-up is cut short as the end of the file only at the end. */
  method RunStartupWarmup(reader: Source, target: int, canceled: bool) returns (outcome: Outcome, readBytes: nat)
    modifies reader
    ensures readBytes <= Greatest(target, 0)
    ensures outcome == Skipped <==> target <= 0
    ensures outcome == Skipped ==> reader.offset == old(reader.offset) && reader.seeks == old(reader.seeks)
    ensures target > 0 ==>
              && reader.seeks == old(reader.seeks) + 1
              && (outcome == RestoreFailed <==> !reader.content.seekable(old(reader.offset)))
              && reader.offset == old(reader.offset) + (if outcome == RestoreFailed then readBytes else 0)
              && (outcome == RequestCanceled <==> outcome != RestoreFailed && canceled)
    ensures outcome == Success ==> readBytes == target
    ensures outcome == ShortRead ==> readBytes < target && Dry(reader.content, old(reader.offset) + readBytes)
    ensures outcome == EndOfFile && reader.content.Honest() ==>
              old(reader.offset) + readBytes >= |reader.content.bytes|
    ensures outcome == EndOfFile ==> EndedWith(reader.content, old(reader.offset) + readBytes, Eof)
    ensures outcome == TimeoutReached ==> EndedWith(reader.content, old(reader.offset) + readBytes, TimedOut)
    ensures outcome == ReadError ==> EndedWith(reader.content, old(reader.offset) + readBytes, Broken)
  {
    if target <= 0 {
      return Skipped, 0;
    }
    var startOffset := reader.offset;
    var status;
    readBytes, status := ReadStartupWarmup(reader, target);
    var restored := reader.SeekTo(startOffset);
    if !restored {
      return RestoreFailed, readBytes;
    }
    if canceled {
      return RequestCanceled, readBytes;
    }
    match status {
      case TimedOut => return TimeoutReached, readBytes;
      case Eof => return EndOfFile, readBytes;
      case Fine => return if readBytes >= target then Success else ShortRead, readBytes;
      case Broken => return ReadError, readBytes;
    }
  }
}
