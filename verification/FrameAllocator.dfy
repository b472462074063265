/** The physical frame allocator: a bitmap of 64-frame words searched word by word. */
module FrameAllocator {
  import opened Alignment
  import opened FrameView

  /** One word of the bitmap, lowest frame first; a set bit marks a used frame. */
  type Word = w: seq<bool> | |w| == WORD_BITS witness seq(WORD_BITS, _ => true)

  function FullWord(): (w: Word)
    ensures forall b :: 0 <= b < WORD_BITS ==> w[b]
  {
    seq(WORD_BITS, _ => true)
  }

  function Flat(words: seq<Word>): (v: View)
    ensures |v| == WORD_BITS * |words|
    ensures forall w, b {:trigger words[w][b]} :: 0 <= w < |words| && 0 <= b < WORD_BITS ==> v[WORD_BITS * w + b] == words[w][b]
  {
    seq(WORD_BITS * |words|, i requires 0 <= i < WORD_BITS * |words| => words[i / WORD_BITS][i % WORD_BITS])
  }

  lemma FlatUpdate(words: seq<Word>, f: nat, used: bool)
    requires f < WORD_BITS * |words|
    ensures
      var w := f / WORD_BITS;
      Flat(words[w := words[w][f % WORD_BITS := used]]) == Flat(words)[f := used]
  {
    var w := f / WORD_BITS;
    var words' := words[w := words[w][f % WORD_BITS := used]];
    forall i | 0 <= i < WORD_BITS * |words| ensures Flat(words')[i] == Flat(words)[f := used][i] {
      assert i == WORD_BITS * (i / WORD_BITS) + i % WORD_BITS;
      assert f == WORD_BITS * w + f % WORD_BITS;
    }
  }

  /** `trailing_zeros` of the complement: the lowest clear bit of a word that is not full. */
  function LowestClear(w: Word, b: nat): (k: nat)
    requires b <= WORD_BITS && exists i :: b <= i < WORD_BITS && !w[i]
    ensures b <= k < WORD_BITS && !w[k] && forall i :: b <= i < k ==> w[i]
    decreases WORD_BITS - b
  {
    if !w[b] then b else LowestClear(w, b + 1)
  }

  class FrameAllocator {
    const bitmap: array<Word>
    var totalFrames: nat
    var freeFrames: int
    var nextFreeHint: nat

    ghost predicate Shape()
      reads this
    {
      bitmap.Length == BITMAP_LEN && nextFreeHint <= MAX_FRAMES
    }

    ghost function State(): (s: Frames)
      reads this, bitmap
      requires Shape()
    {
      Frames(Flat(bitmap[..]), freeFrames, nextFreeHint)
    }

    ghost predicate Valid()
      reads this, bitmap
    {
      Shape() && Inv(State())
    }

    constructor ()
      ensures Shape() && fresh(bitmap)
    {
      bitmap := new Word[BITMAP_LEN](_ => FullWord());
      totalFrames, freeFrames, nextFreeHint := 0, 0, 0;
    }

    predicate IsAllocated(frame: nat)
      reads this, bitmap
      requires Shape() && frame < MAX_FRAMES
      ensures IsAllocated(frame) <==> State().view[frame]
    {
      assert frame == WORD_BITS * (frame / WORD_BITS) + frame % WORD_BITS;
      assert bitmap[..][frame / WORD_BITS][frame % WORD_BITS] == bitmap[frame / WORD_BITS][frame % WORD_BITS];
      bitmap[frame / WORD_BITS][frame % WORD_BITS]
    }

    /** `mark_used` and `mark_free`. */
    method Mark(frame: nat, used: bool)
      requires Shape() && frame < MAX_FRAMES
      modifies bitmap
      ensures State() == Frames(old(State()).view[frame := used], freeFrames, nextFreeHint)
    {
      FlatUpdate(bitmap[..], frame, used);
      ghost var words := bitmap[..];
      var w := frame / WORD_BITS;
      bitmap[w] := bitmap[w][frame % WORD_BITS := used];
      assert bitmap[..] == words[w := words[w][frame % WORD_BITS := used]];
    }

    /** Search the words `from..to` for the first that is not full. */
    method FindWord(from: nat, to: nat) returns (frame: nat)
      requires Shape() && from <= to <= BITMAP_LEN
      ensures frame == MAX_FRAMES || WORD_BITS * from <= frame < WORD_BITS * to
      ensures frame < MAX_FRAMES ==> !State().view[frame]
      ensures forall f :: WORD_BITS * from <= f < WORD_BITS * to && f < frame ==> State().view[f]
    {
      ghost var view := State().view;
      var w := from;
      while w < to
        invariant from <= w <= to
        invariant forall f :: WORD_BITS * from <= f < WORD_BITS * w ==> view[f]
      {
        if bitmap[w] != FullWord() {
          NotFull(bitmap[w]);
          var b := LowestClear(bitmap[w], 0);
          forall f | WORD_BITS * w <= f < WORD_BITS * w + b ensures view[f] {
            assert bitmap[..][w][f - WORD_BITS * w];
          }
          assert !bitmap[..][w][b];
          return WORD_BITS * w + b;
        }
        forall f | WORD_BITS * w <= f < WORD_BITS * (w + 1) ensures view[f] {
          assert bitmap[..][w][f - WORD_BITS * w];
        }
        w := w + 1;
      }
      frame := MAX_FRAMES;
    }

    /** The lowest free frame at or behind the hint's word, else the lowest one before it. */
    method Find() returns (frame: nat)
      requires Shape()
      ensures frame == Search(State().view, WordStart(nextFreeHint))
    {
      var start := nextFreeHint / WORD_BITS;
      frame := FindWord(start, BITMAP_LEN);
      if frame == MAX_FRAMES {
        frame := FindWord(0, start);
      }
      SearchIs(State().view, WORD_BITS * start, frame);
    }

    method Allocate() returns (r: nat)
      requires Shape()
      modifies this`freeFrames, this`nextFreeHint, bitmap
      ensures Shape() && (State(), r) == FrameView.Allocate(old(State()))
    {
      if freeFrames == 0 {
        return MAX_FRAMES;
      }
      r := Find();
      if r < MAX_FRAMES {
        Mark(r, true);
        freeFrames := freeFrames - 1;
        nextFreeHint := r + 1;
      }
    }

    method Deallocate(frame: nat) returns (r: DeallocateResult)
      requires Shape()
      modifies this`freeFrames, this`nextFreeHint, bitmap
      ensures Shape() && (State(), r) == FrameView.Deallocate(old(State()), frame)
    {
      if frame >= MAX_FRAMES {
        return InvalidFrame;
      }
      if !IsAllocated(frame) {
        return Done;
      }
      Mark(frame, false);
      freeFrames := freeFrames + 1;
      if frame < nextFreeHint {
        nextFreeHint := frame;
      }
      r := Done;
    }

    /** Everything used, then the whole frames of each free region cleared one by one. */
    method Init(regions: seq<Region>)
      requires Shape()
      modifies this`totalFrames, this`freeFrames, this`nextFreeHint, bitmap
      ensures Shape() && totalFrames == freeFrames
      ensures InBitmap(FreedFrames(regions))
      ensures State() == Frames(Cleared(FreedFrames(regions)), |FreedFrames(regions)|, 0)
      ensures DisjointRegions(regions) ==> Valid()
    {
      FillWords();
      totalFrames, freeFrames, nextFreeHint := 0, 0, 0;
      FreeRegions(regions);
      if DisjointRegions(regions) {
        InitInv(regions);
      }
    }

    method FreeRegions(regions: seq<Region>)
      requires Shape() && State().view == AllUsed() && totalFrames == freeFrames == 0
      modifies this`totalFrames, this`freeFrames, bitmap
      ensures Shape() && InBitmap(FreedFrames(regions))
      ensures State().view == Cleared(FreedFrames(regions)) && totalFrames == freeFrames == |FreedFrames(regions)|
    {
      for n := 0 to |regions|
        invariant Shape() && totalFrames == freeFrames == |FreedFrames(regions[..n])|
        invariant InBitmap(FreedFrames(regions[..n])) && State().view == Cleared(FreedFrames(regions[..n]))
      {
        assert regions[..n + 1][..n] == regions[..n];
        if regions[n].free {
          FreeRegion(FirstFrame(regions[n]), LastFrame(regions[n]), FreedFrames(regions[..n]));
        } else {
          assert FreedFrames(regions[..n]) + [] == FreedFrames(regions[..n]);
        }
      }
      assert regions[..|regions|] == regions;
    }

    method FillWords()
      requires Shape()
      modifies bitmap
      ensures State().view == AllUsed()
    {
      for w := 0 to BITMAP_LEN
        invariant forall i :: 0 <= i < w ==> bitmap[i] == FullWord()
      {
        bitmap[w] := FullWord();
      }
      forall f | 0 <= f < MAX_FRAMES ensures Flat(bitmap[..])[f] {
        assert f == WORD_BITS * (f / WORD_BITS) + f % WORD_BITS;
        assert bitmap[..][f / WORD_BITS][f % WORD_BITS];
      }
    }

    /** Free the frames `first..last` that the bitmap knows, on top of those in `done`. */
    method FreeRegion(first: nat, last: nat, ghost done: seq<nat>)
      requires Shape() && InBitmap(done)
      requires State().view == Cleared(done) && totalFrames == freeFrames == |done|
      modifies this`totalFrames, this`freeFrames, bitmap
      ensures Shape() && InBitmap(done + Clip(first, last))
      ensures State().view == Cleared(done + Clip(first, last)) && totalFrames == freeFrames == |done + Clip(first, last)|
    {
      var frame := first;
      ghost var cur := done;
      assert done + Clip(first, first) == done;
      while frame < last
        invariant first <= frame && (frame <= last || frame == first)
        invariant Shape() && cur == done + Clip(first, frame) && InBitmap(cur)
        invariant State().view == Cleared(cur) && totalFrames == freeFrames == |cur|
      {
        ClearedStep(done, first, frame);
        FreeFrame(frame);
        cur := done + Clip(first, frame + 1);
        frame := frame + 1;
      }
      if last <= first {
        assert Clip(first, last) == Clip(first, first);
      }
    }

    /** One frame of a free region, if the bitmap has a place for it. */
    method FreeFrame(frame: nat)
      requires Shape()
      modifies this`totalFrames, this`freeFrames, bitmap
      ensures Shape()
      ensures State().view == if frame < MAX_FRAMES then old(State()).view[frame := false] else old(State()).view
      ensures totalFrames == old(totalFrames) + if frame < MAX_FRAMES then 1 else 0
      ensures freeFrames == old(freeFrames) + if frame < MAX_FRAMES then 1 else 0
    {
      if frame < MAX_FRAMES {
        Mark(frame, false);
        totalFrames := totalFrames + 1;
        freeFrames := freeFrames + 1;
      }
    }

    method ReserveOne(frame: nat)
      requires Shape()
      modifies this`freeFrames, bitmap
      ensures Shape() && State() == ReserveFrame(old(State()), frame)
    {
      if frame < MAX_FRAMES && !IsAllocated(frame) {
        Mark(frame, true);
        if freeFrames > 0 {
          freeFrames := freeFrames - 1;
        }
      }
    }

    method ReserveRange(base: nat, size: nat)
      requires Shape()
      modifies this`freeFrames, bitmap
      ensures Shape() && State() == Reserve(old(State()), base / PAGE_SIZE, (size + PAGE_SIZE - 1) / PAGE_SIZE)
    {
      var start, count := base / PAGE_SIZE, (size + PAGE_SIZE - 1) / PAGE_SIZE;
      for i := 0 to count
        invariant Shape() && State() == Reserve(old(State()), start, i)
      {
        ReserveOne(start + i);
      }
    }
  }

  lemma NotFull(w: Word)
    requires w != FullWord()
    ensures exists i :: 0 <= i < WORD_BITS && !w[i]
  {
  }

  /** What the two word searches together compute. */
  lemma SearchIs(v: View, start: nat, frame: nat)
    requires |v| == MAX_FRAMES && start <= |v|
    requires frame == MAX_FRAMES || (frame < MAX_FRAMES && !v[frame])
    requires frame < start ==> forall f :: start <= f < |v| ==> v[f]
    requires forall f :: (if frame >= start then start <= f else 0 <= f) && f < frame ==> v[f]
    requires frame == MAX_FRAMES ==> forall f :: 0 <= f < |v| ==> v[f]
    ensures Search(v, start) == frame
  {
  }
}
