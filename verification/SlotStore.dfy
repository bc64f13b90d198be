/** Saved settings in flash (data_storage.c): slots with a magic word and a checksum, and a cache of the slots
    that have passed the check. */
module SlotStore {
  import opened Arithmetic
  import opened BitMasks

  const PROPERTIES_MAGIC := 0x434f4e54
  const NO_SAVE_SLOT := 0xFFFF
  const PAGE := 0x400

  /** Flash is programmed in half words. */
  type Half = x: int | 0 <= x < TWO_16
  const ERASED: Half := 0xFFFF

  /** Number of slots, half words from slot to slot, and words of the stored settings. */
  datatype Board = Board(slots: nat, stride: nat, words: nat) {
    predicate Valid() {
      0 < slots < 8 && stride % PAGE == 0 && 2 <= words && 2 * words <= stride
    }

    function Size(): nat { 2 * words }
    function Start(id: nat): nat { id * stride }
    function FullArea(): nat { Start(slots) + PAGE }
  }

  const F303 := Board(7, 0x2000, 4063)
  const F072 := Board(5, 0xC00, 1063)

  lemma BoardsAreValid()
    ensures F303.Valid() && F072.Valid()
  {}

  /** Slots do not overlap each other or the configuration behind them. */
  lemma SlotsApart(b: Board, i: nat, j: nat)
    ensures i < j ==> b.Start(i) + b.stride <= b.Start(j)
  {
    if i < j { MulMono(i + 1, j, b.stride); }
  }

  // ---- the checksum ----

  function WordAt(h: seq<Half>, k: nat): nat
    requires 2 * k + 1 < |h|
  {
    h[2 * k] + TWO_16 * h[2 * k + 1]
  }

  /** Rotation left by one, which is how the source's rotation right by 31 is meant. */
  function Rotated(v: nat): nat
    requires v < TWO_32
  {
    if v < TWO_31 then 2 * v else 2 * v - TWO_32 + 1
  }

  /** Checksum of the first n words. */
  function Sum(h: seq<Half>, n: nat): (v: nat)
    requires 2 * n <= |h|
    ensures v < TWO_32
  {
    if n == 0 then 0 else (Rotated(Sum(h, n - 1)) + WordAt(h, n - 1)) % TWO_32
  }

  method Checksum(h: seq<Half>, n: nat) returns (value: nat)
    requires 2 * n <= |h|
    ensures value == Sum(h, n)
  {
    value := 0;
    for k := 0 to n
      invariant value == Sum(h, k)
    {
      value := (Rotated(value) + WordAt(h, k)) % TWO_32;
    }
  }

  lemma {:induction false} SumDepends(h: seq<Half>, g: seq<Half>, n: nat)
    requires |h| == |g| && 2 * n <= |h| && forall k :: 0 <= k < 2 * n ==> h[k] == g[k]
    ensures Sum(h, n) == Sum(g, n)
  {
    if n > 0 { SumDepends(h, g, n - 1); }
  }

  /** The images differ in word k and nowhere else. */
  predicate OneWordOff(h: seq<Half>, g: seq<Half>, k: nat) {
    && |h| == |g| && 2 * k + 1 < |h| && WordAt(h, k) != WordAt(g, k)
    && forall i :: 0 <= i < |h| && i != 2 * k && i != 2 * k + 1 ==> h[i] == g[i]
  }

  /** One changed word always changes the checksum. */
  lemma {:induction false} OneWordChangesSum(h: seq<Half>, g: seq<Half>, k: nat, n: nat)
    requires OneWordOff(h, g, k) && k < n && 2 * n <= |h|
    ensures Sum(h, n) != Sum(g, n)
  {
    if k == n - 1 {
      SumDepends(h, g, n - 1);
      StepKeepsApart(Sum(h, n - 1), Sum(g, n - 1), WordAt(h, n - 1), WordAt(g, n - 1));
    } else {
      OneWordChangesSum(h, g, k, n - 1);
      assert WordAt(h, n - 1) == WordAt(g, n - 1);
      StepKeepsApart(Sum(h, n - 1), Sum(g, n - 1), WordAt(h, n - 1), WordAt(g, n - 1));
    }
  }

  lemma StepKeepsApart(u: nat, v: nat, x: nat, y: nat)
    requires u < TWO_32 && v < TWO_32 && x < TWO_32 && y < TWO_32
    requires (u == v) != (x == y)
    ensures (Rotated(u) + x) % TWO_32 != (Rotated(v) + y) % TWO_32
  {}

  // ---- the rotation ----

  /** Every bit moves up by one, and the highest to the bottom. */
  lemma RotatedBits(v: nat, k: nat)
    requires v < TWO_32 && k < 32
    ensures Bit(Rotated(v), if k < 31 then k + 1 else 0) <==> Bit(v, k)
  {
    hide Bit, Rotated;
    if k < 31 { BitMovesUp(v, k); } else { HighestMoves(v); }
  }

  lemma BitMovesUp(v: nat, k: nat)
    requires v < TWO_32 && k < 31
    ensures Bit(Rotated(v), k + 1) <==> Bit(v, k)
  {
    hide Pow2, Bit;
    HighestBit();
    BitSteps(Rotated(v), k);
    if TWO_31 <= v {
      assert Rotated(v) / 2 == v - TWO_31;
      WithoutTop(v, 31, k);
    }
  }

  lemma HighestMoves(v: nat)
    requires v < TWO_32
    ensures Bit(Rotated(v), 0) <==> Bit(v, 31)
  {
    hide Pow2, Bit;
    HighestBit();
    TopBit(v, 31);
    BitSteps(Rotated(v), 0);
  }

  lemma BitSteps(w: nat, k: nat)
    ensures (Bit(w, k + 1) <==> Bit(w / 2, k)) && (Bit(w, 0) <==> w % 2 == 1)
  {}

  lemma HighestBit()
    ensures Pow2(31) == TWO_31
  {
    assert Pow2(8) == 0x100;
    assert Pow2(16) == 0x1_0000;
    assert Pow2(24) == 0x100_0000;
  }

  /** The highest bit of a word of n + 1 bits. */
  lemma {:induction false} TopBit(v: nat, n: nat)
    requires v < 2 * Pow2(n)
    ensures Bit(v, n) <==> Pow2(n) <= v
  {
    if n > 0 { TopBit(v / 2, n - 1); }
  }

  lemma {:induction false} WithoutTop(v: nat, n: nat, k: nat)
    requires Pow2(n) <= v && k < n
    ensures Bit(v - Pow2(n), k) <==> Bit(v, k)
    decreases n
  {
    if k > 0 {
      assert (v - Pow2(n)) / 2 == v / 2 - Pow2(n - 1);
      WithoutTop(v / 2, n - 1, k - 1);
    }
  }

  /** The words k and k + 1 of the images are exchanged, and the rest is the same. */
  predicate Exchanged(h: seq<Half>, g: seq<Half>, k: nat) {
    && |h| == |g| && 2 * k + 3 < |h|
    && WordAt(g, k) == WordAt(h, k + 1) && WordAt(g, k + 1) == WordAt(h, k)
    && forall i :: 0 <= i < |h| && !(2 * k <= i < 2 * k + 4) ==> h[i] == g[i]
  }

  /** What the exchange of two words does to the checksum behind them. */
  lemma ExchangeStep(s: nat, a: nat, b: nat)
    requires s < TWO_32 && a < TWO_32 && b < TWO_32
    requires 2 <= (a - b) % TWO_32 <= TWO_32 - 2
    ensures (Rotated((Rotated(s) + a) % TWO_32) + b) % TWO_32 != (Rotated((Rotated(s) + b) % TWO_32) + a) % TWO_32
  {
    var r := Rotated(s);
    var i, x := Rotation(r, a);
    var j, y := Rotation(r, b);
    NotCongruent(Rotated(x) + b, Rotated(y) + a, a - b, i - j);
  }

  /** The rotated sum, without its wraps. */
  lemma Rotation(r: nat, a: nat) returns (i: int, x: nat)
    requires r < TWO_32 && a < TWO_32
    ensures x == (r + a) % TWO_32 && x < TWO_32
    ensures var v := 2 * (r + a) - TWO_32 * i; Rotated(x) == v || Rotated(x) == v + 1
  {
    x := (r + a) % TWO_32;
    i := 2 * ((r + a) / TWO_32) + if x < TWO_31 then 0 else 1;
  }

  lemma NotCongruent(u: nat, v: nat, d: int, m: int)
    requires -TWO_32 < d < TWO_32 && 2 <= d % TWO_32 <= TWO_32 - 2
    requires u - v + TWO_32 * m == d || u - v + TWO_32 * m == d + 1 || u - v + TWO_32 * m == d - 1
    ensures u % TWO_32 != v % TWO_32
  {
    if u % TWO_32 == v % TWO_32 {
      Congruent(u, v);
      NoMultiple(u / TWO_32 - v / TWO_32 + m, d);
    }
  }

  lemma Congruent(u: nat, v: nat)
    requires u % TWO_32 == v % TWO_32
    ensures u - v == TWO_32 * (u / TWO_32 - v / TWO_32)
  {}

  lemma NoMultiple(q: int, d: int)
    requires -TWO_32 < d < TWO_32 && 2 <= d % TWO_32 <= TWO_32 - 2
    ensures TWO_32 * q != d && TWO_32 * q != d + 1 && TWO_32 * q != d - 1
  {
    assert d % TWO_32 == if d < 0 then d + TWO_32 else d;
  }

  /** So the order of the words counts: two neighbours that differ by more than one, counted around, cannot change
      places unnoticed. */
  lemma ExchangeChangesSum(h: seq<Half>, g: seq<Half>, k: nat, n: nat)
    requires Exchanged(h, g, k) && k + 2 <= n && 2 * n <= |h|
    requires 2 <= (WordAt(h, k) - WordAt(h, k + 1)) % TWO_32 <= TWO_32 - 2
    ensures Sum(h, n) != Sum(g, n)
  {
    SumDepends(h, g, k);
    PairChangesSum(h, g, k, WordAt(h, k), WordAt(h, k + 1));
    forall i | k + 2 <= i < n ensures WordAt(h, i) == WordAt(g, i) { SameWord(h, g, i); }
    StaysChanged(h, g, k + 2, n);
  }

  lemma PairChangesSum(h: seq<Half>, g: seq<Half>, k: nat, a: nat, b: nat)
    requires 2 * k + 4 <= |h| == |g| && Sum(h, k) == Sum(g, k) && a < TWO_32 && b < TWO_32
    requires WordAt(h, k) == a == WordAt(g, k + 1) && WordAt(h, k + 1) == b == WordAt(g, k)
    requires 2 <= (a - b) % TWO_32 <= TWO_32 - 2
    ensures Sum(h, k + 2) != Sum(g, k + 2)
  {
    hide Rotated;
    TwoWords(h, k);
    TwoWords(g, k);
    ExchangeStep(Sum(h, k), a, b);
  }

  lemma {:induction false} StaysChanged(h: seq<Half>, g: seq<Half>, m: nat, n: nat)
    requires |h| == |g| && m <= n && 2 * n <= |h| && Sum(h, m) != Sum(g, m)
    requires forall i :: m <= i < n ==> WordAt(h, i) == WordAt(g, i)
    ensures Sum(h, n) != Sum(g, n)
    decreases n
  {
    hide Rotated, WordAt;
    if m < n {
      StaysChanged(h, g, m, n - 1);
      WordFits(h, n - 1);
      StepKeepsApart(Sum(h, n - 1), Sum(g, n - 1), WordAt(h, n - 1), WordAt(g, n - 1));
    }
  }

  lemma WordFits(h: seq<Half>, k: nat)
    requires 2 * k + 1 < |h|
    ensures WordAt(h, k) < TWO_32
  {}

  lemma SameWord(h: seq<Half>, g: seq<Half>, k: nat)
    requires |h| == |g| && 2 * k + 1 < |h| && h[2 * k] == g[2 * k] && h[2 * k + 1] == g[2 * k + 1]
    ensures WordAt(h, k) == WordAt(g, k)
  {}

  lemma TwoWords(h: seq<Half>, k: nat)
    requires 2 * k + 4 <= |h|
    ensures Sum(h, k + 2) == (Rotated((Rotated(Sum(h, k)) + WordAt(h, k)) % TWO_32) + WordAt(h, k + 1)) % TWO_32
  {
    hide Rotated, WordAt;
  }

  // ---- sealed images ----

  function SetWord(h: seq<Half>, k: nat, v: nat): (g: seq<Half>)
    requires 2 * k + 1 < |h| && v < TWO_32
    ensures |g| == |h| && WordAt(g, k) == v
    ensures forall i :: 0 <= i < |h| && i != 2 * k && i != 2 * k + 1 ==> g[i] == h[i]
  {
    h[2 * k := v % TWO_16][2 * k + 1 := v / TWO_16]
  }

  /** With the magic word and the checksum written in. */
  function Sealed(h: seq<Half>): (g: seq<Half>)
    requires 4 <= |h| && |h| % 2 == 0
    ensures |g| == |h|
  {
    var m := SetWord(h, 0, PROPERTIES_MAGIC);
    var n := |h| / 2 - 1;
    SetWord(m, n, Sum(m, n))
  }

  predicate Passes(h: seq<Half>)
    requires 4 <= |h| && |h| % 2 == 0
  {
    var n := |h| / 2 - 1;
    WordAt(h, 0) == PROPERTIES_MAGIC && Sum(h, n) == WordAt(h, n)
  }

  lemma SealedPasses(h: seq<Half>)
    requires 4 <= |h| && |h| % 2 == 0
    ensures Passes(Sealed(h))
    ensures forall i :: 2 <= i < |h| - 2 ==> Sealed(h)[i] == h[i]
  {
    var m := SetWord(h, 0, PROPERTIES_MAGIC);
    var n := |h| / 2 - 1;
    SumDepends(m, Sealed(h), n);
  }

  /** A single wrong word, the magic and the checksum included, is always noticed. */
  lemma OneWordDetected(h: seq<Half>, g: seq<Half>, k: nat)
    requires 4 <= |h| && |h| % 2 == 0 && Passes(h) && OneWordOff(h, g, k)
    ensures !Passes(g)
  {
    var n := |h| / 2 - 1;
    if k == n {
      SumDepends(h, g, n);
    } else {
      OneWordChangesSum(h, g, k, n);
      assert WordAt(g, n) == WordAt(h, n);
    }
  }

  /** Nor does an exchange of two neighbouring words pass, unless they differ by one at most. */
  lemma ExchangeDetected(h: seq<Half>, g: seq<Half>, k: nat)
    requires 4 <= |h| && |h| % 2 == 0 && Passes(h) && Exchanged(h, g, k) && 2 * k + 6 <= |h|
    requires 2 <= (WordAt(h, k) - WordAt(h, k + 1)) % TWO_32 <= TWO_32 - 2
    ensures !Passes(g)
  {
    var n := |h| / 2 - 1;
    ExchangeChangesSum(h, g, k, n);
    assert WordAt(g, n) == WordAt(h, n);
  }

  /** An erased slot does not pass. */
  lemma ErasedFails(h: seq<Half>)
    requires 4 <= |h| && |h| % 2 == 0 && forall i :: 0 <= i < |h| ==> h[i] == ERASED
    ensures !Passes(h)
  {}

  // ---- the store without a cache ----

  /** Contents of the slots, the active settings, and the slot they belong to. */
  datatype State = State(slots: seq<seq<Half>>, props: seq<Half>, last: nat)

  datatype Op = Save(id: nat) | Get(id: nat) | Recall(id: nat) | Clear | Change(props: seq<Half>)

  ghost predicate IsState(b: Board, s: State) {
    && b.Valid() && |s.slots| == b.slots && |s.props| == b.Size()
    && forall i :: 0 <= i < |s.slots| ==> |s.slots[i]| == b.Size()
  }

  function Blank(n: nat): seq<Half> { seq(n, i => ERASED) }

  /** Every read checks the slot again. The second component is what the call returns; a lookup returns 1 for
      a pointer to the slot and 0 for none. */
  ghost function Apply(b: Board, op: Op, s: State): (r: (State, int))
    requires IsState(b, s) && (op.Change? ==> |op.props| == b.Size())
    ensures IsState(b, r.0)
  {
    match op
    case Save(id) =>
      if id >= b.slots then (s, -1)
      else (State(s.slots[id := Sealed(s.props)], Sealed(s.props), id), 0)
    case Get(id) =>
      (s, if id < b.slots && Passes(s.slots[id]) then 1 else 0)
    case Recall(id) =>
      if id == NO_SAVE_SLOT then (s.(last := NO_SAVE_SLOT), 0)
      else if id < b.slots && Passes(s.slots[id]) then (s.(props := s.slots[id], last := id), 0)
      else (s.(last := NO_SAVE_SLOT), 1)
    case Clear =>
      (State(seq(b.slots, i => Blank(b.Size())), s.props, NO_SAVE_SLOT), 0)
    case Change(p) =>
      (s.(props := p), 0)
  }

  /** What a save does: the slot passes and holds the settings but for magic word and checksum, the other slots are
      untouched, and so is everything for a slot there is not. */
  lemma SaveDoes(b: Board, id: nat, s: State)
    requires IsState(b, s)
    ensures var (t, r) := Apply(b, Save(id), s);
      if id >= b.slots then t == s && r == -1 else
      && r == 0 && t.last == id && t.props == t.slots[id] && Passes(t.slots[id])
      && (forall i :: 2 <= i < b.Size() - 2 ==> t.slots[id][i] == s.props[i])
      && |t.slots| == |s.slots| && forall k :: 0 <= k < |s.slots| && k != id ==> t.slots[k] == s.slots[k]
  {
    SealedPasses(s.props);
    hide Sealed, Passes;
  }

  /** What a recall does: it succeeds exactly for a slot that passes, and for the number that means no slot; the
      settings become those of the slot, and those of no slot stay; in any case no slot changes. */
  lemma RecallDoes(b: Board, id: nat, s: State)
    requires IsState(b, s)
    ensures var (t, r) := Apply(b, Recall(id), s);
      && (r == 0 || r == 1) && t.slots == s.slots
      && (r == 0 <==> id == NO_SAVE_SLOT || (id < b.slots && Passes(s.slots[id])))
      && t.last == (if r == 0 then id else NO_SAVE_SLOT)
      && t.props == (if r == 0 && id != NO_SAVE_SLOT then s.slots[id] else s.props)
  {
    hide Passes;
  }

  ghost predicate Sized(b: Board, ops: seq<Op>) {
    forall i :: 0 <= i < |ops| && ops[i].Change? ==> |ops[i].props| == b.Size()
  }

  ghost function After(b: Board, ops: seq<Op>, s: State): (r: State)
    requires IsState(b, s) && Sized(b, ops)
    ensures IsState(b, r)
    decreases |ops|
  {
    if ops == [] then s
    else
      assert Sized(b, ops[..|ops| - 1]);
      Apply(b, ops[|ops| - 1], After(b, ops[..|ops| - 1], s)).0
  }

  /** Neither saved to the slot nor erased it. */
  predicate Spares(ops: seq<Op>, id: nat) {
    forall i :: 0 <= i < |ops| ==> ops[i] != Save(id) && ops[i] != Clear
  }

  lemma {:induction false} SparedSlot(b: Board, ops: seq<Op>, id: nat, s: State)
    requires IsState(b, s) && Sized(b, ops) && Spares(ops, id) && id < b.slots
    ensures After(b, ops, s).slots[id] == s.slots[id]
    decreases |ops|
  {
    if ops != [] { SparedSlot(b, ops[..|ops| - 1], id, s); }
  }

  /** A recall brings back what was last saved to the slot, whatever was saved elsewhere, looked up, recalled
      or changed in between. */
  lemma LastSaved(b: Board, ops: seq<Op>, id: nat, s: State)
    requires IsState(b, s) && Sized(b, ops) && Spares(ops, id) && id < b.slots
    ensures var saved := Apply(b, Save(id), s).0;
      && IsState(b, saved)
      && Apply(b, Recall(id), After(b, ops, saved)) == (After(b, ops, saved).(props := Sealed(s.props), last := id), 0)
  {
    hide Passes, Sealed;
    SparedSlot(b, ops, id, Apply(b, Save(id), s).0);
    SealedPasses(s.props);
  }

  /** After an erase every recall of a slot fails, until something is saved to it. */
  lemma NothingAfterClear(b: Board, ops: seq<Op>, id: nat, s: State)
    requires IsState(b, s) && Sized(b, ops) && Spares(ops, id) && id < b.slots
    ensures var cleared := Apply(b, Clear, s).0;
      && IsState(b, cleared)
      && Apply(b, Recall(id), After(b, ops, cleared)) == (After(b, ops, cleared).(last := NO_SAVE_SLOT), 1)
  {
    hide Passes;
    SparedSlot(b, ops, id, Apply(b, Clear, s).0);
    ErasedFails(Blank(b.Size()));
  }

  // ---- the store with its cache ----

  class Store {
    const board: Board
    const flash: array<Half>
    var checksumOk: nat
    var lastSaveId: nat
    var props: seq<Half>

    /** Power on: no slot has been checked yet, whatever flash holds. */
    constructor (board: Board, contents: seq<Half>, props: seq<Half>)
      requires board.Valid() && |contents| == board.FullArea() && |props| == board.Size()
      ensures Valid() && fresh(flash) && flash[..] == contents
      ensures this.board == board && this.props == props && checksumOk == 0 && lastSaveId == 0
    {
      this.board, this.props, checksumOk, lastSaveId := board, props, 0, 0;
      flash := new Half[|contents|](i requires 0 <= i < |contents| => contents[i]);
      new;
      forall id: nat ensures !Bit(0, id) { NoBits(id); }
    }

    predicate Mapped() { board.Valid() && flash.Length == board.FullArea() }

    ghost function Slot(id: nat): (h: seq<Half>)
      requires Mapped() && id < board.slots
      reads flash
      ensures |h| == board.Size()
    {
      SlotsApart(board, id, board.slots);
      flash[board.Start(id)..board.Start(id) + board.Size()]
    }

    /** A slot whose bit is set would pass the check again. */
    ghost predicate CacheTrue()
      requires Mapped()
      reads `checksumOk, flash
    {
      forall id :: 0 <= id < board.slots && Bit(checksumOk, id) ==> Passes(Slot(id))
    }

    ghost predicate Valid() reads this, flash {
      Mapped() && |props| == board.Size() && CacheTrue()
    }

    ghost function SlotsTo(n: nat): (r: seq<seq<Half>>)
      requires Mapped() && n <= board.slots
      reads flash
      ensures |r| == n && forall i :: 0 <= i < n ==> r[i] == Slot(i)
    {
      if n == 0 then [] else SlotsTo(n - 1) + [Slot(n - 1)]
    }

    ghost function Slots(): (r: seq<seq<Half>>)
      requires Mapped()
      reads flash
      ensures |r| == board.slots && forall i :: 0 <= i < board.slots ==> r[i] == Slot(i)
    {
      SlotsTo(board.slots)
    }

    ghost function Now(): (s: State)
      requires Mapped() && |props| == board.Size()
      reads this, flash
      ensures IsState(board, s)
    {
      State(Slots(), props, lastSaveId)
    }

    /** Erases the pages from a page boundary on that hold `size` half words. */
    method ErasePages(start: nat, size: nat)
      requires start % PAGE == 0 && start + (size + PAGE - 1) / PAGE * PAGE <= flash.Length
      modifies flash
      ensures forall i :: 0 <= i < flash.Length ==>
                flash[i] == if start <= i < start + (size + PAGE - 1) / PAGE * PAGE then ERASED else old(flash[i])
    {
      var page := start;
      while page < start + size
        invariant start <= page <= start + (size + PAGE - 1) / PAGE * PAGE && page % PAGE == 0
        invariant forall i :: 0 <= i < flash.Length ==> flash[i] == if start <= i < page then ERASED else old(flash[i])
      {
        ErasePage(page);
        page := page + PAGE;
      }
    }

    method ErasePage(page: nat)
      requires page + PAGE <= flash.Length
      modifies flash
      ensures forall i :: 0 <= i < flash.Length ==>
              flash[i] == if page <= i < page + PAGE then ERASED else old(flash[i])
    {
      for k := 0 to PAGE
        invariant forall i :: 0 <= i < flash.Length ==>
                  flash[i] == if page <= i < page + k then ERASED else old(flash[i])
      {
        flash[page + k] := ERASED;
      }
    }

    /** Flash takes a half word only where it is erased. */
    method ProgramHalfWord(at: nat, v: Half)
      requires at < flash.Length && flash[at] == ERASED
      modifies flash
      ensures flash[..] == old(flash[..])[at := v]
    {
      flash[at] := v;
    }

    method ProgramBuffer(start: nat, data: seq<Half>)
      requires start % PAGE == 0 && start + (|data| + PAGE - 1) / PAGE * PAGE <= flash.Length
      modifies flash
      ensures flash[start..start + |data|] == data
      ensures forall i :: 0 <= i < flash.Length && !(start <= i < start + (|data| + PAGE - 1) / PAGE * PAGE) ==>
                flash[i] == old(flash[i])
    {
      ErasePages(start, |data|);
      for k := 0 to |data|
        invariant flash[start..start + k] == data[..k]
        invariant forall i :: start + k <= i < start + |data| ==> flash[i] == ERASED
        invariant forall i :: 0 <= i < flash.Length && !(start <= i < start + (|data| + PAGE - 1) / PAGE * PAGE) ==>
                    flash[i] == old(flash[i])
      {
        ProgramHalfWord(start + k, data[k]);
      }
    }

    /** The slot's pages lie inside the slot. */
    lemma SlotPages(id: nat)
      requires Mapped() && id < board.slots
      ensures board.Start(id) % PAGE == 0
      ensures board.Start(id) + (board.Size() + PAGE - 1) / PAGE * PAGE <=
              board.Start(id) + board.stride <= flash.Length
    {
      SlotsApart(board, id, board.slots);
      PageMultiple(id, board.stride);
      WholePages(board.Size(), board.stride);
    }

    /** Writes the settings into a slot; no half word outside that slot changes. */
    method WriteSlot(id: nat, data: seq<Half>)
      requires Mapped() && id < board.slots && |data| == board.Size()
      modifies flash
      ensures Slots() == old(Slots())[id := data]
      ensures flash[board.Start(board.slots)..] == old(flash[board.Start(board.slots)..])
    {
      SlotsApart(board, id, board.slots);
      ghost var was, slots := flash[..], Slots();
      hide Board.Start, Board.Valid, Board.FullArea, SlotsTo, Slots;
      Program(id, data);
      hide Outside;
      ghost var now := flash[..];
      forall i | 0 <= i < board.slots && i != id
        ensures Slot(i) == slots[i]
      {
        SlotsApart(board, i, board.slots);
        OtherKept(board, was, now, id, i);
      }
      OthersKept(board, was, now, id);
    }

    method Program(id: nat, data: seq<Half>)
      requires Mapped() && id < board.slots && |data| == board.Size()
      modifies flash
      ensures Slot(id) == data
      ensures Outside(old(flash[..]), flash[..], board.Start(id), board.Start(id) + board.stride)
    {
      SlotPages(id);
      hide Board.Start, Board.Valid, Board.FullArea;
      ProgramBuffer(board.Start(id), data);
    }

    method CaldataSave(id: nat) returns (r: int)
      requires Valid()
      modifies this, flash
      ensures Valid() && (Now(), r) == Apply(board, Save(id), old(Now()))
      ensures flash[board.Start(board.slots)..] == old(flash[board.Start(board.slots)..])
    {
      if id >= board.slots { return -1; }
      SealedPasses(props);
      hide Passes, Sealed, Board.Start, Bit;
      props := Sealed(props);
      WriteSlot(id, props);
      assert forall i :: 0 <= i < board.slots ==> Slot(i) == Slots()[i];
      lastSaveId := id;
      r := 0;
    }

    method Check(src: seq<Half>) returns (ok: bool)
      requires board.Valid() && |src| == board.Size()
      ensures ok == Passes(src)
    {
      var n := board.words - 1;
      ok := WordAt(src, 0) == PROPERTIES_MAGIC;
      if ok {
        var sum := Checksum(src, n);
        ok := sum == WordAt(src, n);
      }
    }

    /** The lookup: the check is skipped for a slot whose bit is set. */
    method GetProperties(id: nat) returns (found: bool)
      requires Valid()
      modifies `checksumOk
      ensures Valid() && Now() == old(Now())
      ensures found <==> id < board.slots && Passes(Slot(id))
      ensures forall k :: Bit(checksumOk, k) <==> old(Bit(checksumOk, k)) || (found && k == id)
    {
      if id >= board.slots { return false; }
      SlotsApart(board, id, board.slots);
      hide Bit, Passes, Board.Start, Or, Shifted;
      var src := flash[board.Start(id)..board.Start(id) + board.Size()];
      if Bit(checksumOk, id) { return true; }
      var ok := Check(src);
      if !ok { return false; }
      SetsBit(checksumOk, id);
      checksumOk := Or(checksumOk, Shifted(1, id));
      found := true;
    }

    method CaldataRecall(id: nat) returns (r: int)
      requires Valid()
      modifies `checksumOk, `lastSaveId, `props
      ensures Valid() && (Now(), r) == Apply(board, Recall(id), old(Now()))
    {
      hide Bit, Passes, Board.Start;
      lastSaveId := NO_SAVE_SLOT;
      if id == NO_SAVE_SLOT { return 0; }
      var found := GetProperties(id);
      if !found { return 1; }
      lastSaveId := id;
      SlotsApart(board, id, board.slots);
      props := flash[board.Start(id)..board.Start(id) + board.Size()];
      r := 0;
    }

    /** Erases the configuration and every slot. */
    method ClearAllConfigPropData()
      requires Valid()
      modifies this, flash
      ensures Valid() && Now() == Apply(board, Clear, old(Now())).0 && checksumOk == 0
      ensures forall i :: 0 <= i < flash.Length ==> flash[i] == ERASED
    {
      hide Passes, Bit, SlotsTo;
      lastSaveId := NO_SAVE_SLOT;
      checksumOk := 0;
      PageMultiple(board.slots, board.stride);
      ErasePages(0, flash.Length);
      hide Board.Start;
      forall id: nat ensures !Bit(0, id) { NoBits(id); }
      ErasedSlots();
    }

    lemma ErasedSlots()
      requires Mapped() && forall i :: 0 <= i < flash.Length ==> flash[i] == ERASED
      ensures Slots() == seq(board.slots, i => Blank(board.Size()))
    {
      hide Board.Start, SlotsTo;
      forall i | 0 <= i < board.slots
        ensures Slot(i) == Blank(board.Size())
      {
        SlotsApart(board, i, board.slots);
      }
    }

    /** Any run of the store, with its cache, is a run of the store without one. */
    method Run(ops: seq<Op>)
      requires Valid() && Sized(board, ops)
      modifies this, flash
      ensures Valid() && Now() == After(board, ops, old(Now()))
    {
      ghost var start := Now();
      hide Passes, Sealed, Bit, Board.Start, Apply;
      for i := 0 to |ops|
        invariant Valid() && Sized(board, ops[..i]) && Now() == After(board, ops[..i], start)
      {
        OneMoreOp(board, ops, i, start);
        match ops[i] {
          case Save(id) => var _ := CaldataSave(id);
          case Get(id) =>
            GetChangesNothing(board, id, Now());
            var _ := GetProperties(id);
          case Recall(id) => var _ := CaldataRecall(id);
          case Clear => ClearAllConfigPropData();
          case Change(p) =>
            ChangeSets(board, p, Now());
            props := p;
        }
      }
      assert ops[..|ops|] == ops;
    }
  }

  ghost predicate Outside(f: seq<Half>, g: seq<Half>, a: nat, z: nat) {
    |f| == |g| && forall k :: 0 <= k < |f| && !(a <= k < z) ==> g[k] == f[k]
  }

  /** What lies outside the stride of a slot belongs to the other slots ... */
  lemma OtherKept(b: Board, f: seq<Half>, g: seq<Half>, id: nat, i: nat)
    requires b.Valid() && id < b.slots && i < b.slots && i != id && |f| == |g| == b.FullArea()
    requires Outside(f, g, b.Start(id), b.Start(id) + b.stride)
    ensures b.Start(i) + b.Size() <= |f|
    ensures f[b.Start(i)..b.Start(i) + b.Size()] == g[b.Start(i)..b.Start(i) + b.Size()]
  {
    SlotsApart(b, i, b.slots);
    SlotsApart(b, i, id);
    SlotsApart(b, id, i);
    hide Board.Start;
  }

  /** ... and to the configuration. */
  lemma OthersKept(b: Board, f: seq<Half>, g: seq<Half>, id: nat)
    requires b.Valid() && id < b.slots && |f| == |g| == b.FullArea()
    requires Outside(f, g, b.Start(id), b.Start(id) + b.stride)
    ensures b.Start(b.slots) <= |f| && f[b.Start(b.slots)..] == g[b.Start(b.slots)..]
  {
    SlotsApart(b, id, b.slots);
    hide Board.Start;
  }

  /** mask |= 1 << id */
  lemma SetsBit(mask: nat, id: nat)
    ensures forall k :: Bit(Or(mask, Shifted(1, id)), k) <==> Bit(mask, k) || k == id
  {
    forall k: nat
      ensures Bit(Or(mask, Shifted(1, id)), k) <==> Bit(mask, k) || k == id
    {
      BitOr(mask, Shifted(1, id), k);
      BitOnes(id, 1, k);
      assert Pow2(1) - 1 == 1;
    }
  }

  lemma PageMultiple(k: nat, s: nat)
    requires s % PAGE == 0
    ensures k * s % PAGE == 0
  {
    var p := s / PAGE;
    assert s == PAGE * p;
    assert k * s == PAGE * (k * p);
  }

  lemma WholePages(n: nat, s: nat)
    requires s % PAGE == 0 && n <= s
    ensures (n + PAGE - 1) / PAGE * PAGE <= s
  {}

  lemma OneMoreOp(b: Board, ops: seq<Op>, i: nat, s: State)
    requires IsState(b, s) && Sized(b, ops) && i < |ops| && Sized(b, ops[..i])
    ensures Sized(b, ops[..i + 1])
    ensures After(b, ops[..i + 1], s) == Apply(b, ops[i], After(b, ops[..i], s)).0
  {
    assert ops[..i + 1][..i] == ops[..i];
  }

  lemma GetChangesNothing(b: Board, id: nat, s: State)
    requires IsState(b, s)
    ensures Apply(b, Get(id), s).0 == s
  {}

  lemma ChangeSets(b: Board, p: seq<Half>, s: State)
    requires IsState(b, s) && |p| == b.Size()
    ensures Apply(b, Change(p), s).0 == s.(props := p)
  {}
}
