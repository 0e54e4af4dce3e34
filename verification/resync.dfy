/**
 * The push-on-103: after response code 103 the node re-sends every location
 * whose update flag is raised, with the value it holds now. Booleans go
 * first, word by word and bit by bit (a word whose update bits are all clear
 * is skipped as a whole), then for each word index the N, D and F values.
 */
module Resync {
  import opened Codec
  import opened BitWord
  import opened DataStore

  /** The update bits of boolean word `i`, from bit `j` up. */
  function BitPushesFrom(f: BitFile, i: nat, j: nat): seq<Push>
    requires BitFileOk(f) && i < BSize && j <= 16
    decreases 16 - j
  {
    if j == 16 then []
    else Given(BitAt(f.upd, i, j), PushBit(i, j, BitAt(f.vals, i, j))) + BitPushesFrom(f, i, j + 1)
  }

  /** The boolean part, words `i` onward. */
  function BitPushes(f: BitFile, i: nat): seq<Push>
    requires BitFileOk(f) && i <= BSize
    decreases BSize - i
  {
    if i == BSize then []
    else WordBits(f, i) + BitPushes(f, i + 1)
  }

  /** The pushes of boolean word `i`; a word whose update bits are all clear is skipped outright. */
  function WordBits(f: BitFile, i: nat): seq<Push>
    requires BitFileOk(f) && i < BSize
  {
    if f.upd[i] != 0 then BitPushesFrom(f, i, 0) else []
  }

  /** The N, D and F part, word indices `i` onward. */
  function WordPushes(s: Store, i: nat): seq<Push>
    requires Valid(s) && i <= NdfSize
    decreases NdfSize - i
  {
    if i == NdfSize then [] else WordChunk(s, i) + WordPushes(s, i + 1)
  }

  /** The N, then D, then F push of word index `i`, each only if its update flag is raised. */
  function WordChunk(s: Store, i: nat): seq<Push>
    requires Valid(s) && i < NdfSize
  {
    Given(s.n.upd[i], PushInt(i, s.n.vals[i]))
    + Given(s.d.upd[i], PushDInt(i, s.d.vals[i]))
    + Given(s.f.upd[i], PushFloat(i, s.f.vals[i]))
  }

  /** `p` alone if `flag` is raised, nothing otherwise. */
  function Given(flag: bool, p: Push): seq<Push> {
    if flag then [p] else []
  }

  /** Everything `update` sends after code 103, in sending order. */
  function PushList(s: Store): seq<Push>
    requires Valid(s)
  {
    BitPushes(s.b, 0) + WordPushes(s, 0)
  }

  /** `p` is due: its location exists, its update flag is raised and it carries the stored value. */
  predicate Pending(s: Store, p: Push)
    requires Valid(s)
  {
    PushOk(p) &&
    match p
    case PushBit(w, b, v) => BitAt(s.b.upd, w, b) && v == BitAt(s.b.vals, w, b)
    case PushInt(w, n) => s.n.upd[w] && n == s.n.vals[w]
    case PushDInt(w, d) => s.d.upd[w] && d == s.d.vals[w]
    case PushFloat(w, x) => s.f.upd[w] && x == s.f.vals[w]
  }

  /** A position for every location: booleans by (word, bit), then N, D, F interleaved by word. */
  function Key(p: Push): nat {
    match p
    case PushBit(w, b, _) => 16 * w + b
    case PushInt(w, _) => 960 + 3 * w
    case PushDInt(w, _) => 961 + 3 * w
    case PushFloat(w, _) => 962 + 3 * w
  }

  predicate Increasing(ps: seq<Push>) {
    forall i, j | 0 <= i < j < |ps| :: Key(ps[i]) < Key(ps[j])
  }

  predicate KeysIn(ps: seq<Push>, lo: nat, hi: nat) {
    forall i | 0 <= i < |ps| :: lo <= Key(ps[i]) < hi
  }

  /** Two increasing runs, the first wholly below the second, make one increasing run. */
  lemma IncreasingConcat(a: seq<Push>, b: seq<Push>, lo: nat, mid: nat, hi: nat)
    requires lo <= mid <= hi
    requires Increasing(a) && Increasing(b) && KeysIn(a, lo, mid) && KeysIn(b, mid, hi)
    ensures Increasing(a + b) && KeysIn(a + b, lo, hi)
  {
    var c := a + b;
    forall i, j | 0 <= i < j < |c|
      ensures Key(c[i]) < Key(c[j])
    {
      if j < |a| {
      } else if i >= |a| {
        assert c[i] == b[i - |a|] && c[j] == b[j - |a|];
      } else {
        assert Key(c[i]) < mid <= Key(b[j - |a|]);
      }
    }
    forall i | 0 <= i < |c|
      ensures lo <= Key(c[i]) < hi
    {
      if i < |a| {
        assert c[i] == a[i];
      } else {
        assert c[i] == b[i - |a|];
      }
    }
  }

  /** Membership in one word's pushes, location by location. */
  lemma {:induction false} InBitPushesFrom(f: BitFile, i: nat, j: nat, p: Push)
    requires BitFileOk(f) && i < BSize && j <= 16
    ensures p in BitPushesFrom(f, i, j) <==>
              p.PushBit? && p.word == i && j <= p.bit < 16 && BitAt(f.upd, i, p.bit) && p.value == BitAt(f.vals, i, p.bit)
    decreases 16 - j
  {
    if j < 16 {
      InBitPushesFrom(f, i, j + 1, p);
      var head := Given(BitAt(f.upd, i, j), PushBit(i, j, BitAt(f.vals, i, j)));
      assert p in head <==> p.PushBit? && p.word == i && p.bit == j && BitAt(f.upd, i, j) && p.value == BitAt(f.vals, i, j);
    }
  }

  lemma {:induction false} BitPushesFromSorted(f: BitFile, i: nat, j: nat)
    requires BitFileOk(f) && i < BSize && j <= 16
    ensures Increasing(BitPushesFrom(f, i, j)) && KeysIn(BitPushesFrom(f, i, j), 16 * i + j, 16 * i + 16)
    decreases 16 - j
  {
    if j < 16 {
      BitPushesFromSorted(f, i, j + 1);
      var p := PushBit(i, j, BitAt(f.vals, i, j));
      var head := Given(BitAt(f.upd, i, j), p);
      GivenSorted(BitAt(f.upd, i, j), p);
      IncreasingConcat(head, BitPushesFrom(f, i, j + 1), 16 * i + j, 16 * i + j + 1, 16 * i + 16);
    }
  }

  /** A zero update word has no update bit, so skipping it loses nothing. */
  lemma ZeroWordNoPending(f: BitFile, i: nat, p: Push)
    requires BitFileOk(f) && i < BSize && f.upd[i] == 0
    ensures !(p.PushBit? && p.word == i && p.bit < 16 && BitAt(f.upd, i, p.bit))
  {
    ZeroWordHasNoBits(f.upd[i]);
    if p.PushBit? && p.bit < 16 {
      assert !GetBit(f.upd[i], p.bit as Byte);
    }
  }

  lemma {:induction false} InBitPushes(f: BitFile, i: nat, p: Push)
    requires BitFileOk(f) && i <= BSize
    ensures p in BitPushes(f, i) <==>
              p.PushBit? && i <= p.word < BSize && p.bit < 16
              && BitAt(f.upd, p.word, p.bit) && p.value == BitAt(f.vals, p.word, p.bit)
    decreases BSize - i
  {
    if i < BSize {
      InBitPushes(f, i + 1, p);
      InBitPushesFrom(f, i, 0, p);
      if f.upd[i] == 0 {
        ZeroWordNoPending(f, i, p);
      }
    }
  }

  lemma WordBitsSorted(f: BitFile, i: nat)
    requires BitFileOk(f) && i < BSize
    ensures Increasing(WordBits(f, i)) && KeysIn(WordBits(f, i), 16 * i, 16 * i + 16)
  {
    BitPushesFromSorted(f, i, 0);
  }

  lemma {:induction false} BitPushesSorted(f: BitFile, i: nat)
    requires BitFileOk(f) && i <= BSize
    ensures Increasing(BitPushes(f, i)) && KeysIn(BitPushes(f, i), 16 * i, 16 * BSize)
    decreases BSize - i
  {
    if i < BSize {
      BitPushesSorted(f, i + 1);
      WordBitsSorted(f, i);
      IncreasingConcat(WordBits(f, i), BitPushes(f, i + 1), 16 * i, 16 * i + 16, 16 * BSize);
    }
  }

  lemma {:induction false} InWordPushes(s: Store, i: nat, p: Push)
    requires Valid(s) && i <= NdfSize
    ensures p in WordPushes(s, i) <==> !p.PushBit? && i <= p.word && Pending(s, p)
    decreases NdfSize - i
  {
    if i < NdfSize {
      InWordPushes(s, i + 1, p);
      InWordChunk(s, i, p);
    }
  }

  lemma GivenSorted(flag: bool, p: Push)
    ensures Increasing(Given(flag, p)) && KeysIn(Given(flag, p), Key(p), Key(p) + 1)
  {
  }

  lemma WordChunkSorted(s: Store, i: nat)
    requires Valid(s) && i < NdfSize
    ensures Increasing(WordChunk(s, i)) && KeysIn(WordChunk(s, i), 960 + 3 * i, 963 + 3 * i)
  {
    var a := PushInt(i, s.n.vals[i]);
    var b := PushDInt(i, s.d.vals[i]);
    var c := PushFloat(i, s.f.vals[i]);
    GivenSorted(s.n.upd[i], a);
    GivenSorted(s.d.upd[i], b);
    GivenSorted(s.f.upd[i], c);
    IncreasingConcat(Given(s.n.upd[i], a), Given(s.d.upd[i], b), Key(a), Key(b), Key(c));
    IncreasingConcat(Given(s.n.upd[i], a) + Given(s.d.upd[i], b), Given(s.f.upd[i], c), Key(a), Key(c), Key(c) + 1);
  }

  lemma InWordChunk(s: Store, i: nat, p: Push)
    requires Valid(s) && i < NdfSize
    ensures p in WordChunk(s, i) <==> !p.PushBit? && p.word == i && Pending(s, p)
  {
    var a := Given(s.n.upd[i], PushInt(i, s.n.vals[i]));
    var b := Given(s.d.upd[i], PushDInt(i, s.d.vals[i]));
    var c := Given(s.f.upd[i], PushFloat(i, s.f.vals[i]));
    assert p in WordChunk(s, i) <==> p in a || p in b || p in c;
  }

  lemma {:induction false} WordPushesSorted(s: Store, i: nat)
    requires Valid(s) && i <= NdfSize
    ensures Increasing(WordPushes(s, i)) && KeysIn(WordPushes(s, i), 960 + 3 * i, 960 + 3 * NdfSize)
    decreases NdfSize - i
  {
    if i < NdfSize {
      WordPushesSorted(s, i + 1);
      WordChunkSorted(s, i);
      IncreasingConcat(WordChunk(s, i), WordPushes(s, i + 1), 960 + 3 * i, 963 + 3 * i, 960 + 3 * NdfSize);
    }
  }

  /**
   * The push-on-103 sends exactly the pending locations: each raised update
   * flag yields one push carrying the stored value, and the order is by
   * location, so none is sent twice.
   */
  lemma PushListExact(s: Store)
    requires Valid(s)
    ensures forall p :: p in PushList(s) <==> Pending(s, p)
    ensures Increasing(PushList(s))
  {
    forall p
      ensures p in PushList(s) <==> Pending(s, p)
    {
      InBitPushes(s.b, 0, p);
      InWordPushes(s, 0, p);
    }
    BitPushesSorted(s.b, 0);
    WordPushesSorted(s, 0);
    IncreasingConcat(BitPushes(s.b, 0), WordPushes(s, 0), 0, 960, 960 + 3 * NdfSize);
  }

  /** An increasing list repeats no push. */
  lemma IncreasingDistinct(ps: seq<Push>)
    requires Increasing(ps)
    ensures forall i, j | 0 <= i < j < |ps| :: ps[i] != ps[j]
  {
  }
}
