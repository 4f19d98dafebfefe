/** The dense client bitset: sixteen 64-bit words, enumerated by trailing zeros and lowest-bit clearing. */
module ClientBitmap {
  import opened Bits
  import opened Sequences
  import opened Wrappers

  const BITMAP_WORDS: nat := 16
  const WORD_BITS: nat := 64
  const MAX_CLIENT_CAPACITY: nat := 1024

  type Word = U64

  /** A bitmap as a value; the router copies it out of its index and back in. */
  type Words = w: seq<Word> | |w| == BITMAP_WORDS
    witness [0, 0, 0, 0, 0, 0, 0, 0, 0, 0, 0, 0, 0, 0, 0, 0]

  const NoClients: Words := [0, 0, 0, 0, 0, 0, 0, 0, 0, 0, 0, 0, 0, 0, 0, 0]

  predicate Member(words: Words, id: nat) {
    id < MAX_CLIENT_CAPACITY && Bit(words[id / WORD_BITS], id % WORD_BITS)
  }

  ghost predicate Nobody(words: Words) {
    forall id: nat :: !Member(words, id)
  }

  // ---------------------------------------------------------------------------------------------
  // One word
  // ---------------------------------------------------------------------------------------------

  function TrailingZeros(w: nat): (z: nat)
    requires w > 0
    ensures Bit(w, z)
  {
    if w % 2 == 1 then 0 else 1 + TrailingZeros(w / 2)
  }

  lemma {:induction false} NoBitBelowLowest(w: nat, i: nat)
    requires w > 0 && i < TrailingZeros(w)
    ensures !Bit(w, i)
  {
    if i > 0 { NoBitBelowLowest(w / 2, i - 1); }
  }

  /** `w & (w - 1)` removes exactly the lowest set bit. */
  lemma {:induction false} ClearLowestBit(w: nat, i: nat)
    requires w > 0
    ensures Bit(And(w, w - 1), i) <==> Bit(w, i) && i != TrailingZeros(w)
  {
    AndBit(w, w - 1, i);
    if w % 2 == 1 {
      if i > 0 { assert (w - 1) / 2 == w / 2; }
    } else if i > 0 {
      assert (w - 1) / 2 == w / 2 - 1;
      AndBit(w / 2, w / 2 - 1, i - 1);
      ClearLowestBit(w / 2, i - 1);
    }
  }

  lemma {:induction false} AndAtMost(a: nat, b: nat)
    ensures And(a, b) <= a && And(a, b) <= b
  {
    if a != 0 && b != 0 { AndAtMost(a / 2, b / 2); }
  }

  lemma {:induction false} OrFits(a: nat, b: nat, k: nat)
    requires a < Pow2(k) && b < Pow2(k)
    ensures Or(a, b) < Pow2(k)
  {
    if k > 0 && a > 0 { OrFits(a / 2, b / 2, k - 1); }
  }

  /** Complementing a k-bit word flips each of its bits. */
  lemma {:induction false} NotBit(m: nat, k: nat, i: nat)
    requires m < Pow2(k) && i < k
    ensures Bit(Pow2(k) - 1 - m, i) <==> !Bit(m, i)
  {
    var c := Pow2(k) - 1 - m;
    if i > 0 {
      assert c / 2 == Pow2(k - 1) - 1 - m / 2;
      NotBit(m / 2, k - 1, i - 1);
    }
  }

  lemma WordLimit(k: nat)
    requires k == WORD_BITS
    ensures Pow2(k) == B64
  {
    PowAt(k);
  }

  function Mask(bit: nat): (m: Word)
    requires bit < WORD_BITS
    ensures m == Pow2(bit)
  {
    WordLimit(WORD_BITS);
    Pow2Mono(bit + 1, WORD_BITS);
    Pow2(bit)
  }

  lemma SetBits(w: Word, bit: nat, r: nat)
    requires r == Or(w, Pow2(bit))
    ensures forall i: nat :: Bit(r, i) <==> Bit(w, i) || i == bit
  {
    forall i: nat ensures Bit(r, i) <==> Bit(w, i) || i == bit {
      OrBit(w, Pow2(bit), i);
      Pow2Bit(bit, i);
    }
  }

  function Set(w: Word, bit: nat): (r: Word)
    requires bit < WORD_BITS
    ensures forall i: nat :: Bit(r, i) <==> Bit(w, i) || i == bit
  {
    WordLimit(WORD_BITS);
    OrFits(w, Mask(bit), WORD_BITS);
    SetBits(w, bit, Or(w, Mask(bit)));
    Or(w, Mask(bit))
  }

  lemma ResetBits(w: Word, bit: nat, r: nat)
    requires bit < WORD_BITS && Pow2(bit) < B64 && r == And(w, B64 - 1 - Pow2(bit))
    ensures forall i: nat :: Bit(r, i) <==> Bit(w, i) && i != bit
  {
    forall i: nat ensures Bit(r, i) <==> Bit(w, i) && i != bit {
      ResetBit(w, bit, i);
    }
  }

  function Reset(w: Word, bit: nat): (r: Word)
    requires bit < WORD_BITS
    ensures forall i: nat :: Bit(r, i) <==> Bit(w, i) && i != bit
  {
    AndAtMost(w, B64 - 1 - Mask(bit));
    ResetBits(w, bit, And(w, B64 - 1 - Mask(bit)));
    And(w, B64 - 1 - Mask(bit))
  }

  lemma ResetBit(w: Word, bit: nat, i: nat)
    requires bit < WORD_BITS && Pow2(bit) < B64
    ensures Bit(And(w, B64 - 1 - Pow2(bit)), i) <==> Bit(w, i) && i != bit
  {
    WordLimit(WORD_BITS);
    AndBit(w, B64 - 1 - Pow2(bit), i);
    if i < WORD_BITS {
      NotBit(Pow2(bit), WORD_BITS, i);
      Pow2Bit(bit, i);
    } else {
      SmallHasNoHighBits(w, WORD_BITS, i);
    }
  }

  /** `(w & mask) != 0`. */
  lemma TestBit(w: Word, bit: nat)
    requires bit < WORD_BITS
    ensures And(w, Mask(bit)) != 0 <==> Bit(w, bit)
  {
    var a := And(w, Mask(bit));
    AndBit(w, Mask(bit), bit);
    Pow2Bit(bit, bit);
    if a != 0 {
      var z := TrailingZeros(a);
      AndBit(w, Mask(bit), z);
      Pow2Bit(bit, z);
    } else {
      ZeroHasNoBits(bit);
    }
  }

  // ---------------------------------------------------------------------------------------------
  // Enumeration
  // ---------------------------------------------------------------------------------------------

  function ClearLowest(w: Word): (r: Word)
    requires w > 0
    ensures r < w
  {
    AndAtMost(w, w - 1);
    And(w, w - 1)
  }

  /** The ids of one word, lowest bit first. */
  function WordElements(w: Word, base: nat): seq<nat> {
    if w == 0 then [] else [base + TrailingZeros(w)] + WordElements(ClearLowest(w), base)
  }

  /** The ids held by the words from index k on. */
  function Elements(words: Words, k: nat): seq<nat>
    decreases |words| - k
  {
    if k >= BITMAP_WORDS then [] else WordElements(words[k], k * WORD_BITS) + Elements(words, k + 1)
  }

  predicate Ascending(ids: seq<nat>) {
    forall i, j :: 0 <= i < j < |ids| ==> ids[i] < ids[j]
  }

  predicate InWord(w: Word, base: nat, id: nat) {
    base <= id < base + WORD_BITS && Bit(w, id - base)
  }

  lemma {:induction false} WordElementsExact(w: Word, base: nat)
    ensures Ascending(WordElements(w, base))
    ensures forall id: nat :: id in WordElements(w, base) <==> InWord(w, base, id)
    decreases w
  {
    if w == 0 {
      forall id: nat ensures !InWord(w, base, id) { if id >= base { ZeroHasNoBits(id - base); } }
    } else {
      var rest := ClearLowest(w);
      WordElementsExact(rest, base);
      LowestInWord(w);
      forall id: nat ensures InWord(rest, base, id) <==> InWord(w, base, id) && id != base + TrailingZeros(w) {
        if id >= base { ClearLowestBit(w, id - base); }
      }
      LowestFirst(w, base);
    }
  }

  lemma LowestInWord(w: Word)
    requires w > 0
    ensures TrailingZeros(w) < WORD_BITS
  {
    var z := TrailingZeros(w);
    WordLimit(WORD_BITS);
    if z >= WORD_BITS { SmallHasNoHighBits(w, WORD_BITS, z); }
  }

  lemma LowestFirst(w: Word, base: nat)
    requires w > 0
    requires var rest := WordElements(ClearLowest(w), base);
      Ascending(rest) && forall id: nat :: id in rest ==> InWord(w, base, id) && id != base + TrailingZeros(w)
    ensures Ascending(WordElements(w, base))
  {
    var rest, z := WordElements(ClearLowest(w), base), TrailingZeros(w);
    forall i | 0 <= i < |rest| ensures base + z < rest[i] {
      var id := rest[i];
      assert id in rest && InWord(w, base, id);
      if id - base < z { NoBitBelowLowest(w, id - base); }
    }
  }

  lemma {:induction false} ElementsFrom(words: Words, k: nat)
    requires k <= BITMAP_WORDS
    ensures Ascending(Elements(words, k))
    ensures forall id: nat :: id in Elements(words, k) <==> id >= k * WORD_BITS && Member(words, id)
    decreases BITMAP_WORDS - k
  {
    if k < BITMAP_WORDS {
      WordElementsExact(words[k], k * WORD_BITS);
      ElementsFrom(words, k + 1);
      var here, rest := WordElements(words[k], k * WORD_BITS), Elements(words, k + 1);
      forall id: nat
        ensures id in here || id in rest <==> id >= k * WORD_BITS && Member(words, id)
      {
        MemberSplits(words, k, id);
      }
      AscendingJoin(here, rest, (k + 1) * WORD_BITS);
    }
  }

  lemma MemberSplits(words: Words, k: nat, id: nat)
    requires k < BITMAP_WORDS
    ensures id >= k * WORD_BITS && Member(words, id)
      <==> InWord(words[k], k * WORD_BITS, id) || (id >= (k + 1) * WORD_BITS && Member(words, id))
  {
    if k * WORD_BITS <= id < (k + 1) * WORD_BITS { assert id / WORD_BITS == k && id % WORD_BITS == id - k * WORD_BITS; }
  }

  lemma AscendingJoin(here: seq<nat>, rest: seq<nat>, mid: nat)
    requires Ascending(here) && Ascending(rest)
    requires (forall id :: id in here ==> id < mid) && forall id :: id in rest ==> mid <= id
    ensures Ascending(here + rest) && forall id: nat :: id in here + rest <==> id in here || id in rest
  {
    forall i, j | 0 <= i < |here| && 0 <= j < |rest| ensures here[i] < rest[j] {
      assert here[i] in here && rest[j] in rest;
    }
  }

  /** The enumeration visits exactly the set bits, in ascending order, each once. */
  lemma ElementsExact(words: Words)
    ensures Ascending(Elements(words, 0))
    ensures forall id: nat :: id in Elements(words, 0) <==> Member(words, id)
  {
    ElementsFrom(words, 0);
  }

  // ---------------------------------------------------------------------------------------------
  // The bitmap object
  // ---------------------------------------------------------------------------------------------

  class ClientBitmap {
    const words: array<Word>

    ghost predicate Valid() { words.Length == BITMAP_WORDS }

    ghost function Value(): Words
      reads words
      requires Valid()
    {
      words[..]
    }

    constructor ()
      ensures Valid() && fresh(words) && Value() == NoClients
    {
      words := new Word[BITMAP_WORDS](_ => 0);
    }

    /** A copy of an index entry. */
    constructor Copy(from: Words)
      ensures Valid() && fresh(words) && Value() == from
    {
      words := new Word[BITMAP_WORDS](i requires 0 <= i < BITMAP_WORDS => from[i]);
    }

    /** An id beyond the capacity is silently not stored. */
    method Insert(clientId: nat) returns (added: bool)
      requires Valid()
      modifies words
      ensures forall id: nat :: Member(Value(), id) <==> Member(old(Value()), id) || (id == clientId && id < MAX_CLIENT_CAPACITY)
      ensures added <==> clientId < MAX_CLIENT_CAPACITY && !Member(old(Value()), clientId)
    {
      var wordIdx, bitIdx := clientId / WORD_BITS, clientId % WORD_BITS;
      if wordIdx < BITMAP_WORDS {
        TestBit(words[wordIdx], bitIdx);
        var alreadySet := And(words[wordIdx], Mask(bitIdx)) != 0;
        words[wordIdx] := Set(words[wordIdx], bitIdx);
        added := !alreadySet;
        OneWordChanged(old(words[..]), words[..], clientId);
      } else {
        added := false;
      }
    }

    method Remove(clientId: nat) returns (removed: bool)
      requires Valid()
      modifies words
      ensures forall id: nat :: Member(Value(), id) <==> Member(old(Value()), id) && id != clientId
      ensures removed <==> Member(old(Value()), clientId)
    {
      var wordIdx, bitIdx := clientId / WORD_BITS, clientId % WORD_BITS;
      if wordIdx < BITMAP_WORDS {
        TestBit(words[wordIdx], bitIdx);
        removed := And(words[wordIdx], Mask(bitIdx)) != 0;
        words[wordIdx] := Reset(words[wordIdx], bitIdx);
        OneWordChanged(old(words[..]), words[..], clientId);
      } else {
        removed := false;
      }
    }

    method Contains(clientId: nat) returns (present: bool)
      requires Valid()
      ensures present <==> Member(Value(), clientId)
    {
      var wordIdx, bitIdx := clientId / WORD_BITS, clientId % WORD_BITS;
      if wordIdx < BITMAP_WORDS {
        TestBit(words[wordIdx], bitIdx);
        present := And(words[wordIdx], Mask(bitIdx)) != 0;
      } else {
        present := false;
      }
    }

    method IsEmpty() returns (empty: bool)
      requires Valid()
      ensures empty <==> Nobody(Value())
    {
      var i := 0;
      while i < BITMAP_WORDS && words[i] == 0
        invariant i <= BITMAP_WORDS && forall k :: 0 <= k < i ==> words[k] == 0
      {
        i := i + 1;
      }
      empty := i == BITMAP_WORDS;
      if empty {
        forall id: nat | id < MAX_CLIENT_CAPACITY ensures !Member(Value(), id) { ZeroHasNoBits(id % WORD_BITS); }
      } else {
        SomeMember(Value(), i);
      }
    }

    method Union(other: ClientBitmap) returns (result: ClientBitmap)
      requires Valid() && other.Valid()
      ensures result.Valid() && fresh(result) && fresh(result.words)
      ensures forall id: nat :: Member(result.Value(), id) <==> Member(Value(), id) || Member(other.Value(), id)
    {
      result := new ClientBitmap();
      var i := 0;
      while i < BITMAP_WORDS
        invariant i <= BITMAP_WORDS && result.Valid() && fresh(result) && fresh(result.words)
        invariant forall k :: 0 <= k < i ==> result.words[k] == Or(words[k], other.words[k])
        modifies result.words
      {
        result.words[i] := OrWord(words[i], other.words[i]);
        i := i + 1;
      }
      UnionMembers(Value(), other.Value(), result.Value());
    }

    /** The inner loop: lowest bit first, until the word is empty. */
    static method VisitWord(word: Word, baseId: nat) returns (visited: seq<nat>)
      ensures visited == WordElements(word, baseId)
    {
      var w := word;
      visited := [];
      while w != 0
        invariant visited + WordElements(w, baseId) == WordElements(word, baseId)
        decreases w
      {
        var id: nat := baseId + TrailingZeros(w);
        var rest := ClearLowest(w);
        VisitStep(visited, w, baseId, id, rest);
        visited := visited + [id];
        w := rest;
      }
    }

    /** The ids passed to the callback, in order. */
    method ForEach() returns (visited: seq<nat>)
      requires Valid()
      ensures visited == Elements(Value(), 0)
    {
      visited := [];
      var wordIdx := 0;
      while wordIdx < BITMAP_WORDS
        invariant wordIdx <= BITMAP_WORDS
        invariant visited + Elements(Value(), wordIdx) == Elements(Value(), 0)
      {
        var w := words[wordIdx];
        var found := VisitWord(w, wordIdx * WORD_BITS);
        ElementsStep(Value(), wordIdx, visited, found);
        visited := visited + found;
        wordIdx := wordIdx + 1;
      }
    }
  }

  lemma ElementsStep(words: Words, k: nat, visited: seq<nat>, found: seq<nat>)
    requires k < BITMAP_WORDS && found == WordElements(words[k], k * WORD_BITS)
    ensures visited + Elements(words, k) == (visited + found) + Elements(words, k + 1)
  {
    Regroup(visited, found, Elements(words, k + 1));
  }

  lemma VisitStep(visited: seq<nat>, w: Word, base: nat, id: nat, rest: Word)
    requires w > 0 && id == base + TrailingZeros(w) && rest == ClearLowest(w)
    ensures visited + WordElements(w, base) == (visited + [id]) + WordElements(rest, base)
  {
    Regroup(visited, [id], WordElements(rest, base));
  }

  lemma FirstThenRest(w: Word, base: nat, id: nat, rest: Word, later: seq<nat>)
    requires w > 0 && id == base + TrailingZeros(w) && rest == ClearLowest(w)
    ensures [id] + (WordElements(rest, base) + later) == WordElements(w, base) + later
  {
    Regroup([id], WordElements(rest, base), later);
  }

  lemma UnionMember(a: Words, b: Words, r: Words, id: nat)
    requires id < MAX_CLIENT_CAPACITY && forall k :: 0 <= k < BITMAP_WORDS ==> r[k] == Or(a[k], b[k])
    ensures Member(r, id) <==> Member(a, id) || Member(b, id)
  {
    OrBit(a[id / WORD_BITS], b[id / WORD_BITS], id % WORD_BITS);
  }

  lemma UnionMembers(a: Words, b: Words, r: Words)
    requires forall k :: 0 <= k < BITMAP_WORDS ==> r[k] == Or(a[k], b[k])
    ensures forall id: nat :: Member(r, id) <==> Member(a, id) || Member(b, id)
  {
    forall id: nat | id < MAX_CLIENT_CAPACITY
      ensures Member(r, id) <==> Member(a, id) || Member(b, id)
    {
      UnionMember(a, b, r, id);
    }
  }

  function OrWord(a: Word, b: Word): (r: Word)
    ensures r == Or(a, b)
  {
    WordLimit(WORD_BITS);
    OrFits(a, b, WORD_BITS);
    Or(a, b)
  }

  lemma SomeMember(words: Words, k: nat)
    requires k < BITMAP_WORDS && words[k] != 0
    ensures exists id: nat :: Member(words, id)
  {
    LowestInWord(words[k]);
    var id := k * WORD_BITS + TrailingZeros(words[k]);
    assert id / WORD_BITS == k && id % WORD_BITS == TrailingZeros(words[k]);
    assert Member(words, id);
  }

  /** Words that differ only in the one holding `clientId` agree on every id outside it. */
  lemma OneWordChanged(before: Words, after: Words, clientId: nat)
    requires clientId < MAX_CLIENT_CAPACITY
    requires forall k :: 0 <= k < BITMAP_WORDS && k != clientId / WORD_BITS ==> before[k] == after[k]
    ensures forall id: nat :: id < MAX_CLIENT_CAPACITY && id / WORD_BITS != clientId / WORD_BITS ==>
      (Member(before, id) <==> Member(after, id))
    ensures forall id: nat :: id / WORD_BITS == clientId / WORD_BITS && id != clientId ==> id % WORD_BITS != clientId % WORD_BITS
  {
  }

  // ---------------------------------------------------------------------------------------------
  // The iterator
  // ---------------------------------------------------------------------------------------------

  class ClientBitmapIter {
    const bitmap: Words
    var wordIdx: nat
    var currentWord: Word

    ghost predicate Valid()
      reads this
    {
      wordIdx >= BITMAP_WORDS ==> currentWord == 0
    }

    ghost function Remaining(): seq<nat>
      reads this
    {
      WordElements(currentWord, wordIdx * WORD_BITS) + Elements(bitmap, wordIdx + 1)
    }

    constructor (bitmap: Words)
      ensures Valid() && this.bitmap == bitmap && Remaining() == Elements(bitmap, 0)
    {
      this.bitmap := bitmap;
      wordIdx := 0;
      currentWord := bitmap[0];
    }

    /** Yields what `ForEach` would pass next, and None from the end on. */
    method Next() returns (r: Option<nat>)
      requires Valid()
      modifies this
      ensures Valid()
      ensures if old(Remaining()) == [] then r == None && Remaining() == []
              else r == Some(old(Remaining())[0]) && Remaining() == old(Remaining())[1..]
    {
      while currentWord == 0
        invariant Valid() && Remaining() == old(Remaining())
        decreases BITMAP_WORDS - wordIdx
      {
        wordIdx := wordIdx + 1;
        if wordIdx >= BITMAP_WORDS {
          return None;
        }
        currentWord := bitmap[wordIdx];
      }
      var clientId := TakeLowest();
      r := Some(clientId);
    }

    method TakeLowest() returns (clientId: nat)
      requires Valid() && currentWord != 0
      modifies this`currentWord
      ensures Valid() && [clientId] + Remaining() == old(Remaining())
    {
      ghost var w, base := currentWord, wordIdx * WORD_BITS;
      clientId := wordIdx * WORD_BITS + TrailingZeros(currentWord);
      currentWord := ClearLowest(currentWord);
      FirstThenRest(w, base, clientId, currentWord, Elements(bitmap, wordIdx + 1));
    }
  }
}
