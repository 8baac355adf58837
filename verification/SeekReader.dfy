/** The lazy seek wrapper that hides size probes from a torrent reader. */
module SeekReader {
  import opened GoBytes
  import opened Int64

  const SEEK_START := 0
  const SEEK_CURRENT := 1
  const SEEK_END := 2

  /** How a Read ends: in order, at the end of the file, past its deadline, or with another error. */
  datatype Status = Fine | Eof | TimedOut | Broken

  /** A file as the torrent reader serves it: its bytes, how many of the `n` bytes asked for at an
      offset one Read delivers and how it ends, and the offsets it can seek to. */
  datatype Content = Content(
    bytes: Bytes, chunk: (nat, nat) -> nat, status: (nat, nat) -> Status, seekable: nat -> bool)
  {
    function Delivered(offset: nat, n: nat): (k: nat)
      ensures k <= n && (k > 0 ==> offset + k <= |bytes|)
    {
      if offset >= |bytes| then 0 else Min(chunk(offset, n), Min(n, |bytes| - offset))
    }

    /** The bytes of one Read. */
    function Served(offset: nat, n: nat): (data: Bytes)
      ensures |data| == Delivered(offset, n)
    {
      var k := Delivered(offset, n);
      if k == 0 then [] else bytes[offset..offset + k]
    }

    /** The end is announced only there. */
    ghost predicate Honest() {
      forall o: nat, n: nat :: status(o, n) == Eof ==> o + Delivered(o, n) >= |bytes|
    }

    ghost predicate AlwaysSeekable() {
      forall target: nat :: target < TWO63 ==> seekable(target)
    }

    /** A file's length is a 64-bit number. */
    predicate Sized() {
      |bytes| < TWO63
    }
  }

  function Min(a: nat, b: nat): nat {
    if a < b then a else b
  }

  datatype Op = Seek(offset: int, whence: int) | Read(n: nat)

  datatype Answer = Position(pos: nat) | Data(bytes: Bytes, status: Status) | Rejected | NoReader | SeekFailed

  /** Where a seek leads from `pos` in a file of `size` bytes; None for a bad whence or a negative
      target, which a sum beyond 64 bits turns into. */
  function Resolve(pos: nat, size: int, offset: int, whence: int): (target: Option<nat>)
    ensures target.Some? ==> target.value < TWO63
  {
    if whence != SEEK_START && whence != SEEK_CURRENT && whence != SEEK_END then None
    else
      var base := if whence == SEEK_START then 0 else if whence == SEEK_CURRENT then pos else size;
      var target := Wrap(base + offset);
      if target < 0 then None else Some(target)
  }

  // ---- the plain reader: one offset, moved by every call ----------------------------------------

  function PlainStep(c: Content, pos: nat, op: Op): (nat, Answer) {
    match op
    case Seek(offset, whence) =>
      var target := Resolve(pos, |c.bytes|, offset, whence);
      if target == None then (pos, Rejected)
      else if !c.seekable(target.value) then (pos, SeekFailed)
      else (target.value, Position(target.value))
    case Read(n) => (pos + c.Delivered(pos, n), Data(c.Served(pos, n), c.status(pos, n)))
  }

  function PlainRun(c: Content, pos: nat, ops: seq<Op>): seq<Answer>
    decreases |ops|
  {
    if ops == [] then []
    else [PlainStep(c, pos, ops[0]).1] + PlainRun(c, PlainStep(c, pos, ops[0]).0, ops[1..])
  }

  /** Where a seek leads, for 64-bit positions and offsets: from the start, from here or from the end by
      the offset; a target that is negative or beyond 64 bits, or another whence, moves nothing, and so
      does a target that the reader cannot seek to. */
  lemma SeekLeads(c: Content, pos: nat, offset: int, whence: int)
    requires pos < 0x8000_0000_0000_0000 && c.Sized()
    requires -0x8000_0000_0000_0000 <= offset < 0x8000_0000_0000_0000
    ensures var target := if whence == 0 then offset else if whence == 1 then pos + offset else |c.bytes| + offset;
            PlainStep(c, pos, Op.Seek(offset, whence)) ==
            if whence !in {0, 1, 2} || target < 0 || target >= 0x8000_0000_0000_0000 then (pos, Rejected)
            else if c.seekable(target) then (target, Position(target))
            else (pos, SeekFailed)
  {
  }

  // ---- the wrapper ------------------------------------------------------------------------------

  /** The wrapper's fields, the offset of the reader below it and the seeks that reader was asked for. */
  datatype Wrapper = Wrapper(size: int, pos: nat, isVirtual: bool, offset: nat, seeks: nat)

  /** A seek handed down to the reader below, which stays where it is if it cannot seek there. */
  function SeekRealStep(c: Content, w: Wrapper, target: nat): (Wrapper, Answer) {
    if !c.seekable(target) then (w.(seeks := w.seeks + 1), SeekFailed)
    else (w.(pos := target, offset := target, isVirtual := false, seeks := w.seeks + 1), Position(target))
  }

  function SeekStep(c: Content, w: Wrapper, offset: int, whence: int): (Wrapper, Answer) {
    var target := Resolve(w.pos, w.size, offset, whence);
    if target == None then (w, Rejected)
    else if whence == SEEK_END && offset == 0 then
      (w.(pos := target.value, isVirtual := true), Position(target.value))
    else if w.isVirtual then (w.(pos := target.value), Position(target.value))
    else SeekRealStep(c, w, target.value)
  }

  function WrapperStep(c: Content, w: Wrapper, op: Op): (Wrapper, Answer) {
    match op
    case Seek(offset, whence) => SeekStep(c, w, offset, whence)
    case Read(n) =>
      var (r, a) := if w.isVirtual then SeekRealStep(c, w, w.pos) else (w, Position(w.pos));
      if a == SeekFailed then (r, SeekFailed)
      else
        var k := c.Delivered(r.offset, n);
        (r.(offset := r.offset + k, pos := r.pos + k), Data(c.Served(r.offset, n), c.status(r.offset, n)))
  }

  function WrapperRun(c: Content, w: Wrapper, ops: seq<Op>): seq<Answer>
    decreases |ops|
  {
    if ops == [] then []
    else [WrapperStep(c, w, ops[0]).1] + WrapperRun(c, WrapperStep(c, w, ops[0]).0, ops[1..])
  }

  function WrapperEnd(c: Content, w: Wrapper, ops: seq<Op>): Wrapper
    decreases |ops|
  {
    if ops == [] then w else WrapperEnd(c, WrapperStep(c, w, ops[0]).0, ops[1..])
  }

  /** The torrent reader below the wrapper. */
  class Source {
    const content: Content
    var offset: nat
    ghost var seeks: nat

    constructor (content: Content, offset: nat)
      ensures this.content == content && this.offset == offset && seeks == 0
    {
      this.content, this.offset, seeks := content, offset, 0;
    }

    method SeekTo(target: nat) returns (ok: bool)
      modifies this
      ensures ok == content.seekable(target)
      ensures offset == (if ok then target else old(offset)) && seeks == old(seeks) + 1
    {
      ok := content.seekable(target);
      if ok {
        offset := target;
      }
      seeks := seeks + 1;
    }

    method Read(n: nat) returns (data: Bytes, status: Status)
      modifies this
      ensures data == content.Served(old(offset), n) && status == content.status(old(offset), n)
      ensures offset == old(offset) + |data| && seeks == old(seeks)
    {
      data, status := content.Served(offset, n), content.status(offset, n);
      offset := offset + |data|;
    }
  }

  class ServeContentReadSeeker {
    const reader: Source?
    const size: int
    var pos: nat
    var isVirtual: bool

    ghost function View(): Wrapper
      requires reader != null
      reads this, reader
    {
      Wrapper(size, pos, isVirtual, reader.offset, reader.seeks)
    }

    constructor (reader: Source?, size: int)
      ensures this.reader == reader && this.size == size && !isVirtual
      ensures pos == if reader == null then 0 else reader.offset
    {
      this.reader, this.size, isVirtual := reader, size, false;
      pos := if reader == null then 0 else reader.offset;
    }

    method SeekReal(target: nat) returns (a: Answer)
      modifies this, reader
      ensures reader == null ==> a == NoReader && pos == old(pos) && isVirtual == old(isVirtual)
      ensures reader != null ==> (View(), a) == SeekRealStep(reader.content, old(View()), target)
    {
      if reader == null {
        return NoReader;
      }
      var ok := reader.SeekTo(target);
      if !ok {
        return SeekFailed;
      }
      pos := target;
      isVirtual := false;
      return Position(pos);
    }

    method Seek(offset: int, whence: int) returns (a: Answer)
      modifies this, reader
      ensures old(pos) < 0x8000_0000_0000_0000 && 0 <= size < TWO63 && InInt64(offset) ==>
                var target := if whence == 0 then offset else if whence == 1 then old(pos) + offset else size + offset;
                if whence !in {0, 1, 2} || target < 0 || target >= 0x8000_0000_0000_0000 then
                  a == Rejected && pos == old(pos) && isVirtual == old(isVirtual)
                else if old(isVirtual) || (whence == 2 && offset == 0) then
                  a == Position(target) && pos == target && isVirtual
                else if reader != null && reader.content.seekable(target) then
                  a == Position(target) && pos == target == reader.offset && !isVirtual
                else (a == NoReader || a == SeekFailed) && pos == old(pos) && !isVirtual
      ensures reader != null ==> (View(), a) == WrapperStep(reader.content, old(View()), Op.Seek(offset, whence))
      ensures reader == null ==>
                // a seek meant for the reader below fails and changes nothing, the others work
                var target := Resolve(old(pos), size, offset, whence);
                if target == None then a == Rejected && pos == old(pos) && isVirtual == old(isVirtual)
                else if old(isVirtual) || (whence == SEEK_END && offset == 0) then
                  a == Position(target.value) && pos == target.value && isVirtual
                else a == NoReader && pos == old(pos) && !isVirtual
    {
      var target := Resolve(pos, size, offset, whence);
      if target == None {
        return Rejected;
      }
      if whence == SEEK_END && offset == 0 {
        pos := target.value;
        isVirtual := true;
        return Position(pos);
      }
      if isVirtual {
        pos := target.value;
        return Position(pos);
      }
      a := SeekReal(target.value);
    }

    method Read(n: nat) returns (a: Answer)
      modifies this, reader
      ensures reader != null ==> (View(), a) == WrapperStep(reader.content, old(View()), Op.Read(n))
      ensures reader == null ==> a == NoReader && pos == old(pos) && isVirtual == old(isVirtual)
    {
      if reader == null {
        return NoReader;
      }
      if isVirtual {
        a := SeekReal(pos);
        if a == SeekFailed {
          return;
        }
      }
      var data, status := reader.Read(n);
      pos := pos + |data|;
      return Data(data, status);
    }
  }

  // ---- nobody can tell the wrapper from the plain reader -----------------------------------------

  /** Outside virtual mode the wrapper and the reader below agree on the position, and a virtual
      position can be sought. */
  predicate InStep(c: Content, w: Wrapper) {
    if w.isVirtual then c.seekable(w.pos) else w.pos == w.offset
  }

  lemma StepAgrees(c: Content, w: Wrapper, op: Op)
    requires InStep(c, w) && w.size == |c.bytes| && PlainStep(c, w.pos, op).1 != SeekFailed
    ensures var (w', a) := WrapperStep(c, w, op);
            InStep(c, w') && w'.size == w.size && (w'.pos, a) == PlainStep(c, w.pos, op)
  {
  }

  /** A run in which the plain reader can make every seek is the same run through the wrapper. */
  lemma {:induction false} RunsAgree(c: Content, w: Wrapper, ops: seq<Op>)
    requires InStep(c, w) && w.size == |c.bytes| && SeekFailed !in PlainRun(c, w.pos, ops)
    ensures WrapperRun(c, w, ops) == PlainRun(c, w.pos, ops)
    decreases |ops|
  {
    if ops != [] {
      var run := PlainRun(c, w.pos, ops);
      assert run[0] == PlainStep(c, w.pos, ops[0]).1;
      assert run[1..] == PlainRun(c, PlainStep(c, w.pos, ops[0]).0, ops[1..]);
      StepAgrees(c, w, ops[0]);
      RunsAgree(c, WrapperStep(c, w, ops[0]).0, ops[1..]);
    }
  }

  lemma {:induction false} NoSeekFails(c: Content, pos: nat, ops: seq<Op>)
    requires c.AlwaysSeekable()
    ensures SeekFailed !in PlainRun(c, pos, ops)
    decreases |ops|
  {
    if ops != [] {
      NoSeekFails(c, PlainStep(c, pos, ops[0]).0, ops[1..]);
    }
  }

  /** A run of two seeks that gives the wrapper away: it answers a size probe from the size it was
      told, and a seek after it without asking the reader below. */
  lemma ProbeTells(c: Content, w: Wrapper, target: nat)
    requires InInt64(w.size) && c.Sized() && target < TWO63
    requires w.size != |c.bytes| || !c.seekable(target)
    ensures var probe := [Op.Seek(0, SEEK_END), Op.Seek(target, SEEK_START)];
            WrapperRun(c, w, probe) != PlainRun(c, w.pos, probe)
  {
    var probe := [Op.Seek(0, SEEK_END), Op.Seek(target, SEEK_START)];
    var rest := [Op.Seek(target, SEEK_START)];
    assert probe[1..] == rest;
    var w1, p1 := WrapperStep(c, w, probe[0]).0, PlainStep(c, w.pos, probe[0]).0;
    assert WrapperRun(c, w, probe)[0] == WrapperStep(c, w, probe[0]).1;
    assert PlainRun(c, w.pos, probe)[0] == PlainStep(c, w.pos, probe[0]).1;
    if w.size == |c.bytes| {
      assert WrapperRun(c, w, probe)[1] == WrapperRun(c, w1, rest)[0] == Position(target);
      assert PlainRun(c, w.pos, probe)[1] == PlainRun(c, p1, rest)[0] == SeekFailed;
    }
  }

  /** Over all runs the wrapper answers as the plain reader does exactly when it was told the true
      size of the file and the reader below can seek anywhere. */
  lemma Indistinguishable(c: Content, w: Wrapper)
    requires InStep(c, w) && InInt64(w.size) && c.Sized()
    ensures (forall ops :: WrapperRun(c, w, ops) == PlainRun(c, w.pos, ops))
            <==> w.size == |c.bytes| && c.AlwaysSeekable()
  {
    if w.size == |c.bytes| && c.AlwaysSeekable() {
      forall ops ensures WrapperRun(c, w, ops) == PlainRun(c, w.pos, ops) {
        NoSeekFails(c, w.pos, ops);
        RunsAgree(c, w, ops);
      }
    } else {
      var target: nat :| target < TWO63 && (w.size != |c.bytes| || !c.seekable(target));
      ProbeTells(c, w, target);
    }
  }

  // ---- and it spares the reader below ------------------------------------------------------------

  predicate OnlySeeks(ops: seq<Op>) {
    forall i :: 0 <= i < |ops| ==> ops[i].Seek?
  }

  /** A size probe, and every seek after it, leaves the reader below alone until the next read. */
  lemma {:induction false} ProbeIsFree(c: Content, w: Wrapper, ops: seq<Op>)
    requires OnlySeeks(ops) && (w.isVirtual || (0 <= w.size < TWO63 && ops != [] && ops[0] == Op.Seek(0, SEEK_END)))
    ensures var e := WrapperEnd(c, w, ops);
            e.seeks == w.seeks && e.offset == w.offset && e.isVirtual
    decreases |ops|
  {
    if ops != [] {
      ProbeIsFree(c, WrapperStep(c, w, ops[0]).0, ops[1..]);
    }
  }

  /** The seeks that a run of the wrapper answered with a position or a failure of the reader below. */
  function AnsweredSeeks(answers: seq<Answer>): nat {
    if answers == [] then 0
    else (if answers[0].Position? || answers[0].SeekFailed? then 1 else 0) + AnsweredSeeks(answers[1..])
  }

  /** A seek still owed to the reader below. */
  function Debt(w: Wrapper): nat {
    if w.isVirtual then 1 else 0
  }

  /** No run makes the reader below seek more often than the answers account for: one seek for each
      position answered, and one for each failure reported. */
  lemma {:induction false} NeverMoreSeeks(c: Content, w: Wrapper, ops: seq<Op>)
    ensures var e := WrapperEnd(c, w, ops);
            e.seeks + Debt(e) <= w.seeks + Debt(w) + AnsweredSeeks(WrapperRun(c, w, ops))
    decreases |ops|
  {
    if ops != [] {
      var (w', a) := WrapperStep(c, w, ops[0]);
      NeverMoreSeeks(c, w', ops[1..]);
      assert WrapperRun(c, w, ops)[1..] == WrapperRun(c, w', ops[1..]);
    }
  }
}
