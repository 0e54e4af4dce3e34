/**
 * The four data files of an HMI2 node and their flags.
 *
 * The boolean file is sixty 16-bit words; the N (16-bit), D (32-bit) and F
 * (float) files are fifty words each. Every location carries a sticky update
 * flag (set by a local write, never cleared) and a one-shot override flag (set
 * by the override broadcast, cleared the first time a local write consults it).
 * For the boolean file both flags are bits of parallel 16-bit words.
 */
module DataStore {
  import opened Wrappers
  import opened Codec
  import opened BitWord

  /** `bSize` and `ndfSize` of the Mega, Due and ESP builds. */
  const BSize: nat := 60
  const NdfSize: nat := 50

  datatype BitFile = BitFile(vals: seq<U16>, over: seq<U16>, upd: seq<U16>)

  datatype WordFile<T> = WordFile(vals: seq<T>, over: seq<bool>, upd: seq<bool>)

  datatype Store = Store(b: BitFile, n: WordFile<U16>, d: WordFile<U32>, f: WordFile<Float>)

  predicate BitFileOk(f: BitFile) {
    |f.vals| == BSize && |f.over| == BSize && |f.upd| == BSize
  }

  predicate WordFileOk<T>(f: WordFile<T>) {
    |f.vals| == NdfSize && |f.over| == NdfSize && |f.upd| == NdfSize
  }

  /** Every file has its capacity. */
  predicate Valid(s: Store) {
    BitFileOk(s.b) && WordFileOk(s.n) && WordFileOk(s.d) && WordFileOk(s.f)
  }

  /** Bit `bit` of word `word` of a boolean-file layer. */
  function BitAt(words: seq<U16>, word: nat, bit: nat): bool
    requires word < |words| && bit < 16
  {
    GetBit(words[word], bit as Byte)
  }

  /**
   * A value sent to the panel: the word index and, for the boolean file,
   * the bit index, with the value as it is stored.
   */
  datatype Push =
    | PushBit(word: nat, bit: nat, value: bool)
    | PushInt(word: nat, n: U16)
    | PushDInt(word: nat, d: U32)
    | PushFloat(word: nat, x: Float)

  /** A push names a location that exists. */
  predicate PushOk(p: Push) {
    match p
    case PushBit(w, b, _) => w < BSize && b < 16
    case PushInt(w, _) => w < NdfSize
    case PushDInt(w, _) => w < NdfSize
    case PushFloat(w, _) => w < NdfSize
  }

  /** The store after a local write, and the push the write emits, if any. */
  datatype Written = Written(store: Store, push: Option<Push>)

  /** The power-on store: every word zero, every flag clear. */
  function EmptyStore(): (s: Store)
    ensures Valid(s)
    ensures forall w, c | 0 <= w < BSize && 0 <= c < 16 :: !BitAt(s.b.vals, w, c) && !BitAt(s.b.over, w, c) && !BitAt(s.b.upd, w, c)
    ensures forall w | 0 <= w < NdfSize :: s.n.vals[w] == 0 && s.d.vals[w] == 0 && s.f.vals[w] == ZeroFloat
    ensures forall w | 0 <= w < NdfSize :: !s.n.over[w] && !s.n.upd[w] && !s.d.over[w] && !s.d.upd[w] && !s.f.over[w] && !s.f.upd[w]
  {
    var z := seq(BSize, _ => 0 as U16);
    var no := seq(NdfSize, _ => false);
    Store(BitFile(z, z, z), WordFile(seq(NdfSize, _ => 0), no, no),
          WordFile(seq(NdfSize, _ => 0), no, no), WordFile(seq(NdfSize, _ => ZeroFloat), no, no))
  }

  // ---------------------------------------------------------------- reads

  /** `readBFile`: the bit, or false for a word or bit out of range. */
  function ReadB(s: Store, word: int, bit: int): (v: bool)
    requires Valid(s)
    ensures v ==> 0 <= word < BSize && 0 <= bit < 16
  {
    if 0 <= word < BSize && 0 <= bit < 16 then BitAt(s.b.vals, word, bit) else false
  }

  /** `readNFile`: the word, or 0 out of range. */
  function ReadN(s: Store, word: int): (v: U16)
    requires Valid(s)
    ensures v != 0 ==> 0 <= word < NdfSize
  {
    if 0 <= word < NdfSize then s.n.vals[word] else 0
  }

  /** `readDFile`: the word, or 0 out of range. */
  function ReadD(s: Store, word: int): (v: U32)
    requires Valid(s)
    ensures v != 0 ==> 0 <= word < NdfSize
  {
    if 0 <= word < NdfSize then s.d.vals[word] else 0
  }

  /** `readFFile`: the float, or 0.0 out of range. */
  function ReadF(s: Store, word: int): (v: Float)
    requires Valid(s)
    ensures v != ZeroFloat ==> 0 <= word < NdfSize
  {
    if 0 <= word < NdfSize then s.f.vals[word] else ZeroFloat
  }

  // ------------------------------------------------------ override flags

  /**
   * `getBitWordOver`: report the override bit and clear it if it was set.
   * Only that one bit of the override layer changes.
   */
  function TakeBitOverride(f: BitFile, word: nat, bit: nat): (r: (bool, BitFile))
    requires BitFileOk(f) && word < BSize && bit < 16
    ensures BitFileOk(r.1) && r.1.vals == f.vals && r.1.upd == f.upd
    ensures r.0 == BitAt(f.over, word, bit)
    ensures !BitAt(r.1.over, word, bit)
    ensures forall w | 0 <= w < BSize && w != word :: r.1.over[w] == f.over[w]
    ensures forall c | 0 <= c < 16 && c != bit :: BitAt(r.1.over, word, c) == BitAt(f.over, word, c)
  {
    if BitAt(f.over, word, bit) then
      (true, f.(over := f.over[word := ResetBit(f.over[word], bit as Byte)]))
    else
      (false, f)
  }

  /** `getNWordOver` and its D and F twins: report the flag and clear it. */
  function TakeOverride<T>(f: WordFile<T>, word: nat): (r: (bool, WordFile<T>))
    requires WordFileOk(f) && word < NdfSize
    ensures WordFileOk(r.1) && r.1.vals == f.vals && r.1.upd == f.upd
    ensures r.0 == f.over[word]
    ensures r.1.over == f.over[word := false]
  {
    if f.over[word] then (true, f.(over := f.over[word := false])) else (false, f)
  }

  /** Consulting an override twice in a row: the second answer is always false. */
  lemma OverrideOneShot<T>(f: WordFile<T>, word: nat)
    requires WordFileOk(f) && word < NdfSize
    ensures !TakeOverride(TakeOverride(f, word).1, word).0
    ensures TakeOverride(TakeOverride(f, word).1, word).1 == TakeOverride(f, word).1
  {
  }

  /** The boolean twin of `OverrideOneShot`. */
  lemma BitOverrideOneShot(f: BitFile, word: nat, bit: nat)
    requires BitFileOk(f) && word < BSize && bit < 16
    ensures !TakeBitOverride(TakeBitOverride(f, word, bit).1, word, bit).0
    ensures TakeBitOverride(TakeBitOverride(f, word, bit).1, word, bit).1 == TakeBitOverride(f, word, bit).1
  {
  }

  // ------------------------------------------------------- local writes

  /** Store `value` at the bit and raise its update bit; the override layer is untouched. */
  function CommitBit(f: BitFile, word: nat, bit: nat, value: bool): (r: BitFile)
    requires BitFileOk(f) && word < BSize && bit < 16
    ensures BitFileOk(r) && r.over == f.over
    ensures BitAt(r.vals, word, bit) == value && BitAt(r.upd, word, bit)
    ensures forall w | 0 <= w < BSize && w != word :: r.vals[w] == f.vals[w] && r.upd[w] == f.upd[w]
    ensures forall c | 0 <= c < 16 && c != bit ::
              BitAt(r.vals, word, c) == BitAt(f.vals, word, c) && BitAt(r.upd, word, c) == BitAt(f.upd, word, c)
  {
    f.(vals := f.vals[word := SetBit(f.vals[word], bit as Byte, value)],
       upd := f.upd[word := MarkBit(f.upd[word], bit as Byte)])
  }

  /**
   * `writeBFile`: in range, the write goes ahead when the bit differs from
   * `value` or, failing that, when the bit's override was set; the `or`
   * short-circuits, so the override is consulted (and cleared) only when the
   * bit already equals `value`. A write that goes ahead stores the bit, raises
   * its update bit and emits one push.
   */
  function WriteB(s: Store, word: int, bit: int, value: bool): (r: Written)
    requires Valid(s)
    ensures Valid(r.store)
    ensures r.store.n == s.n && r.store.d == s.d && r.store.f == s.f
    ensures !(0 <= word < BSize && 0 <= bit < 16) ==> r == Written(s, None)
    ensures 0 <= word < BSize && 0 <= bit < 16 ==>
              (r.push.Some? <==> BitAt(s.b.vals, word, bit) != value || BitAt(s.b.over, word, bit))
    ensures r.push.Some? ==> r.push == Some(PushBit(word, bit, value)) && PushOk(r.push.value)
    ensures r.push.Some? ==> ReadB(r.store, word, bit) == value && BitAt(r.store.b.upd, word, bit)
    ensures r.push.None? ==> r.store == s
    ensures 0 <= word < BSize && 0 <= bit < 16 && BitAt(s.b.vals, word, bit) != value ==> r.store.b.over == s.b.over
    ensures 0 <= word < BSize && 0 <= bit < 16 && BitAt(s.b.vals, word, bit) == value ==> !BitAt(r.store.b.over, word, bit)
  {
    if 0 <= word < BSize && 0 <= bit < 16 then
      if BitAt(s.b.vals, word, bit) != value then
        Written(s.(b := CommitBit(s.b, word, bit, value)), Some(PushBit(word, bit, value)))
      else
        var (hit, b1) := TakeBitOverride(s.b, word, bit);
        if hit then Written(s.(b := CommitBit(b1, word, bit, value)), Some(PushBit(word, bit, value)))
        else Written(s, None)
    else
      Written(s, None)
  }

  /**
   * The write rule shared by `writeNFile`, `writeDFile` and `writeFFile`:
   * the flag returned says whether the write went ahead (and a push is due).
   */
  function WriteWord<T(==)>(f: WordFile<T>, word: int, value: T): (r: (WordFile<T>, bool))
    requires WordFileOk(f)
    ensures WordFileOk(r.0)
    ensures !(0 <= word < NdfSize) ==> r == (f, false)
    ensures 0 <= word < NdfSize ==> (r.1 <==> f.vals[word] != value || f.over[word])
    ensures r.1 ==> r.0.vals == f.vals[word := value] && r.0.upd == f.upd[word := true]
    ensures !r.1 ==> r.0 == f
    ensures 0 <= word < NdfSize ==>
              r.0.over == (if f.vals[word] != value then f.over else f.over[word := false])
  {
    if 0 <= word < NdfSize then
      if f.vals[word] != value then
        (f.(vals := f.vals[word := value], upd := f.upd[word := true]), true)
      else
        var (hit, f1) := TakeOverride(f, word);
        if hit then (f1.(vals := f1.vals[word := value], upd := f1.upd[word := true]), true)
        else (f, false)
    else
      (f, false)
  }

  /** `writeNFile`. */
  function WriteN(s: Store, word: int, value: U16): (r: Written)
    requires Valid(s)
    ensures Valid(r.store)
    ensures r.store.b == s.b && r.store.d == s.d && r.store.f == s.f
    ensures !(0 <= word < NdfSize) ==> r == Written(s, None)
    ensures 0 <= word < NdfSize ==> (r.push.Some? <==> s.n.vals[word] != value || s.n.over[word])
    ensures r.push.Some? ==> r.push == Some(PushInt(word, value)) && PushOk(r.push.value)
    ensures r.push.Some? ==> ReadN(r.store, word) == value && r.store.n.upd[word]
    ensures r.push.None? ==> r.store == s
  {
    var (n1, sent) := WriteWord(s.n, word, value);
    if sent then Written(s.(n := n1), Some(PushInt(word, value))) else Written(s, None)
  }

  /** `writeDFile`. */
  function WriteD(s: Store, word: int, value: U32): (r: Written)
    requires Valid(s)
    ensures Valid(r.store)
    ensures r.store.b == s.b && r.store.n == s.n && r.store.f == s.f
    ensures !(0 <= word < NdfSize) ==> r == Written(s, None)
    ensures 0 <= word < NdfSize ==> (r.push.Some? <==> s.d.vals[word] != value || s.d.over[word])
    ensures r.push.Some? ==> r.push == Some(PushDInt(word, value)) && PushOk(r.push.value)
    ensures r.push.Some? ==> ReadD(r.store, word) == value && r.store.d.upd[word]
    ensures r.push.None? ==> r.store == s
  {
    var (d1, sent) := WriteWord(s.d, word, value);
    if sent then Written(s.(d := d1), Some(PushDInt(word, value))) else Written(s, None)
  }

  /** `writeFFile`; floats compare by bit pattern. */
  function WriteF(s: Store, word: int, value: Float): (r: Written)
    requires Valid(s)
    ensures Valid(r.store)
    ensures r.store.b == s.b && r.store.n == s.n && r.store.d == s.d
    ensures !(0 <= word < NdfSize) ==> r == Written(s, None)
    ensures 0 <= word < NdfSize ==> (r.push.Some? <==> s.f.vals[word] != value || s.f.over[word])
    ensures r.push.Some? ==> r.push == Some(PushFloat(word, value)) && PushOk(r.push.value)
    ensures r.push.Some? ==> ReadF(r.store, word) == value && r.store.f.upd[word]
    ensures r.push.None? ==> r.store == s
  {
    var (f1, sent) := WriteWord(s.f, word, value);
    if sent then Written(s.(f := f1), Some(PushFloat(word, value))) else Written(s, None)
  }

  // ------------------------------------------------------- pulled writes

  /**
   * A boolean pulled from the panel (response code 65): the word index is
   * checked by the caller, the bit index is not, and no flag is touched.
   */
  function PullBit(s: Store, word: nat, bit: Byte, value: bool): (r: Store)
    requires Valid(s) && word < BSize
    ensures Valid(r) && r.n == s.n && r.d == s.d && r.f == s.f
    ensures r.b.over == s.b.over && r.b.upd == s.b.upd
    ensures forall w | 0 <= w < BSize && w != word :: r.b.vals[w] == s.b.vals[w]
    ensures bit < 16 ==> BitAt(r.b.vals, word, bit as nat) == value
    ensures bit < 16 ==> forall c | 0 <= c < 16 && c != bit as nat :: BitAt(r.b.vals, word, c) == BitAt(s.b.vals, word, c)
  {
    s.(b := s.b.(vals := s.b.vals[word := SetBit(s.b.vals[word], bit, value)]))
  }

  /** A pulled bit index past the word changes nothing at all. */
  lemma PullBitHigh(s: Store, word: nat, bit: Byte, value: bool)
    requires Valid(s) && word < BSize && bit >= 16
    ensures PullBit(s, word, bit, value) == s
  {
  }

  /** A pulled word (codes 75, 77, 79): stored as is, flags untouched. */
  function PullWord<T>(f: WordFile<T>, word: nat, value: T): (r: WordFile<T>)
    requires WordFileOk(f) && word < NdfSize
    ensures WordFileOk(r) && r.over == f.over && r.upd == f.upd
    ensures r.vals[word] == value
    ensures forall w | 0 <= w < NdfSize && w != word :: r.vals[w] == f.vals[w]
  {
    f.(vals := f.vals[word := value])
  }

  // ---------------------------------------------------- override broadcast

  /**
   * The broadcast after response code 102: every boolean override word
   * becomes -1 (all sixteen bits) and every word override flag is set.
   */
  function OverrideAll(s: Store): (r: Store)
    requires Valid(s)
    ensures Valid(r)
    ensures r.b.vals == s.b.vals && r.b.upd == s.b.upd
    ensures r.n.vals == s.n.vals && r.n.upd == s.n.upd && r.d.vals == s.d.vals && r.d.upd == s.d.upd
    ensures r.f.vals == s.f.vals && r.f.upd == s.f.upd
    ensures forall w, c | 0 <= w < BSize && 0 <= c < 16 :: BitAt(r.b.over, w, c)
    ensures forall w | 0 <= w < NdfSize :: r.n.over[w] && r.d.over[w] && r.f.over[w]
  {
    var all := seq(NdfSize, _ => true);
    Store(s.b.(over := seq(BSize, _ => AllBits)), s.n.(over := all), s.d.(over := all), s.f.(over := all))
  }

  // ------------------------------------------------------------ flags

  /** Every update flag raised in `s` is still raised in `t`. */
  predicate FlagsKept(s: Store, t: Store)
    requires Valid(s) && Valid(t)
  {
    (forall w, c | 0 <= w < BSize && 0 <= c < 16 :: BitAt(s.b.upd, w, c) ==> BitAt(t.b.upd, w, c))
    && (forall w | 0 <= w < NdfSize :: (s.n.upd[w] ==> t.n.upd[w]) && (s.d.upd[w] ==> t.d.upd[w]) && (s.f.upd[w] ==> t.f.upd[w]))
  }

  lemma FlagsKeptTrans(s: Store, t: Store, u: Store)
    requires Valid(s) && Valid(t) && Valid(u)
    requires FlagsKept(s, t) && FlagsKept(t, u)
    ensures FlagsKept(s, u)
  {
  }

  /** No local write clears an update flag: the flags are sticky. */
  lemma WriteBKeepsFlags(s: Store, word: int, bit: int, value: bool)
    requires Valid(s)
    ensures FlagsKept(s, WriteB(s, word, bit, value).store)
  {
  }

  lemma WriteNKeepsFlags(s: Store, word: int, value: U16)
    requires Valid(s)
    ensures FlagsKept(s, WriteN(s, word, value).store)
  {
  }

  lemma WriteDKeepsFlags(s: Store, word: int, value: U32)
    requires Valid(s)
    ensures FlagsKept(s, WriteD(s, word, value).store)
  {
  }

  lemma WriteFKeepsFlags(s: Store, word: int, value: Float)
    requires Valid(s)
    ensures FlagsKept(s, WriteF(s, word, value).store)
  {
  }

  // -------------------------------------------------- read after write

  /** A local write that goes ahead is visible to the matching read; other locations read as before. */
  lemma ReadAfterWriteB(s: Store, word: int, bit: int, value: bool, w2: int, b2: int)
    requires Valid(s) && 0 <= word < BSize && 0 <= bit < 16
    ensures ReadB(WriteB(s, word, bit, value).store, word, bit) == value
    ensures (w2, b2) != (word, bit) ==> ReadB(WriteB(s, word, bit, value).store, w2, b2) == ReadB(s, w2, b2)
  {
  }

  lemma ReadAfterWriteN(s: Store, word: int, value: U16, w2: int)
    requires Valid(s) && 0 <= word < NdfSize
    ensures ReadN(WriteN(s, word, value).store, word) == value
    ensures w2 != word ==> ReadN(WriteN(s, word, value).store, w2) == ReadN(s, w2)
  {
  }

  lemma ReadAfterWriteD(s: Store, word: int, value: U32, w2: int)
    requires Valid(s) && 0 <= word < NdfSize
    ensures ReadD(WriteD(s, word, value).store, word) == value
    ensures w2 != word ==> ReadD(WriteD(s, word, value).store, w2) == ReadD(s, w2)
  {
  }

  lemma ReadAfterWriteF(s: Store, word: int, value: Float, w2: int)
    requires Valid(s) && 0 <= word < NdfSize
    ensures ReadF(WriteF(s, word, value).store, word) == value
    ensures w2 != word ==> ReadF(WriteF(s, word, value).store, w2) == ReadF(s, w2)
  {
  }

  /** After the broadcast, even a write of the stored value goes ahead, exactly once. */
  lemma BroadcastForcesOnePush(s: Store, word: int, value: U16)
    requires Valid(s) && 0 <= word < NdfSize && s.n.vals[word] == value
    ensures WriteN(OverrideAll(s), word, value).push == Some(PushInt(word, value))
    ensures WriteN(WriteN(OverrideAll(s), word, value).store, word, value).push.None?
  {
  }
}
