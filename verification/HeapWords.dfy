/** The 64-bit words of heap pages, by virtual address, in the frames behind the pages. */
module HeapWords {
  import opened Arithmetic
  import opened Collections
  import opened PageTree
  import opened KernelMemory
  import opened FrameStore

  const TWO_64 := 0x1_0000_0000_0000_0000

  /** The word `w` by the bit fields of a page table entry. */
  function FromBits(w: nat): (e: Entry)
    requires w < TWO_64
    ensures e.Fits()
  {
    Entry(w % 2 == 1, w / 2 % 2 == 1, w / 4 % 0x80, w / 0x200 % 8, w / 0x1000 % 0x100_0000_0000,
          w / 0x10_0000_0000_0000)
  }

  lemma {:induction false} Halves(w: nat)
    ensures w / 4 == w / 2 / 2 && w / 0x200 == w / 4 / 0x80 && w / 0x1000 == w / 0x200 / 8
  {
  }

  lemma {:induction false} TopDigits(w: nat)
    ensures w / 0x10_0000_0000_0000 == w / 0x1000 / 0x100_0000_0000
  {
  }

  /** A word and its fields determine each other. */
  lemma {:induction false} BitsFromBits(w: nat)
    requires w < TWO_64
    ensures FromBits(w).Bits() == w
  {
    Halves(w);
    TopDigits(w);
  }

  /** The heap page of an address is present, and the word at the address is `x`. */
  ghost predicate HoldsWord(flat: map<nat, Entry>, mem: Memory, a: nat, x: nat) {
    && a % 8 == 0 && x < TWO_64 && a / PAGE_SIZE in flat && IsHeap(a / PAGE_SIZE)
    && var e := flat[a / PAGE_SIZE];
       e.present && e.addr in mem && |mem[e.addr]| == LEVEL_SIZE && mem[e.addr][a % PAGE_SIZE / 8] == FromBits(x)
  }

  /** Words of the heap, by address. */
  type WordStore = map<nat, nat>

  ghost predicate AreHeld(once: Once, words: WordStore, flat: map<nat, Entry>, mem: Memory) {
    match once
    case Only => forall a :: a in words ==> HoldsWord(flat, mem, a, words[a])
  }

  /** Memory holds these words. Opened where that is used. */
  ghost predicate InHeap(words: WordStore, flat: map<nat, Entry>, mem: Memory) {
    forall once: Once :: AreHeld(once, words, flat, mem)
  }

  lemma {:induction false} NoWords(flat: map<nat, Entry>, mem: Memory)
    ensures InHeap(map[], flat, mem)
  {
  }

  lemma {:induction false} OneWord(words: WordStore, flat: map<nat, Entry>, mem: Memory, a: nat)
    requires InHeap(words, flat, mem) && a in words
    ensures HoldsWord(flat, mem, a, words[a])
  {
    assert AreHeld(Only, words, flat, mem);
  }

  /** Fewer words. */
  lemma {:induction false} FewerWords(words: WordStore, fewer: WordStore, flat: map<nat, Entry>, mem: Memory)
    requires InHeap(words, flat, mem)
    requires forall a :: a in fewer ==> a in words && fewer[a] == words[a]
    ensures InHeap(fewer, flat, mem)
  {
    assert AreHeld(Only, words, flat, mem);
  }

  lemma {:induction false} OneWordKept(s: State, mem: Memory, t: State, after: Memory, freed: set<nat>, a: nat, x: nat)
    requires Inv(s) && UsersKept(s.owner, mem, t.owner, after, freed) && HoldsWord(s.flat, mem, a, x)
    requires var v := a / PAGE_SIZE; v in t.flat && t.flat[v] == s.flat[v] && s.flat[v].addr !in freed
    ensures HoldsWord(t.flat, after, a, x)
  {
    UnbackOwner(s, a / PAGE_SIZE);
    assert AreKept(Only, s.owner, mem, t.owner, after, freed);
  }

  /** Words stay while their pages keep their frames and the frames are not freed. */
  lemma {:induction false} WordsStay(words: WordStore, s: State, mem: Memory, t: State, after: Memory, freed: set<nat>)
    requires Inv(s) && UsersKept(s.owner, mem, t.owner, after, freed) && InHeap(words, s.flat, mem)
    requires forall a :: a in words ==>
               var v := a / PAGE_SIZE; v in s.flat && v in t.flat && t.flat[v] == s.flat[v] && s.flat[v].addr !in freed
    ensures InHeap(words, t.flat, after)
  {
    forall a | a in words
      ensures HoldsWord(t.flat, after, a, words[a])
    {
      OneWord(words, s.flat, mem, a);
      OneWordKept(s, mem, t, after, freed, a, words[a]);
    }
  }

  /** The page of an address and the word in it. */
  lemma {:induction false} WordPlace(a: nat)
    requires a % 8 == 0
    ensures a % PAGE_SIZE / 8 < LEVEL_SIZE && a == PAGE_SIZE * (a / PAGE_SIZE) + 8 * (a % PAGE_SIZE / 8)
  {
    var q, m := a / 8 / LEVEL_SIZE, a / 8 % LEVEL_SIZE;
    assert a / 8 == q * LEVEL_SIZE + m && a == 8 * (a / 8);
    DivModUnique(a, PAGE_SIZE, q, 8 * m);
  }

  lemma {:induction false} SamePlace(a: nat, b: nat)
    requires a % 8 == 0 && b % 8 == 0 && a / PAGE_SIZE == b / PAGE_SIZE
    ensures a % PAGE_SIZE / 8 < LEVEL_SIZE
    ensures a % PAGE_SIZE / 8 == b % PAGE_SIZE / 8 ==> a == b
  {
    WordPlace(a);
    WordPlace(b);
  }

  /** A store to a present heap page, by its virtual address. */
  function Poked(flat: map<nat, Entry>, mem: Memory, a: nat, x: nat): Memory
    requires a / PAGE_SIZE in flat && x < TWO_64
    requires var f := flat[a / PAGE_SIZE].addr; f in mem && |mem[f]| == LEVEL_SIZE
  {
    WriteWord(mem, flat[a / PAGE_SIZE].addr, a % PAGE_SIZE / 8, FromBits(x))
  }

  /** It changes that word and no other of the heap. */
  lemma {:induction false} WordWritten(words: WordStore, s: State, mem: Memory, a: nat, x: nat)
    requires Inv(s) && InHeap(words, s.flat, mem) && a % 8 == 0 && x < TWO_64
    requires a / PAGE_SIZE in s.flat && IsHeap(a / PAGE_SIZE) && s.flat[a / PAGE_SIZE].present
    requires var f := s.flat[a / PAGE_SIZE].addr; f in mem && |mem[f]| == LEVEL_SIZE
    ensures InHeap(words[a := x], s.flat, Poked(s.flat, mem, a, x))
  {
    var mem' := Poked(s.flat, mem, a, x);
    var words' := words[a := x];
    UnbackOwner(s, a / PAGE_SIZE);
    SamePlace(a, a);
    forall b | b in words'
      ensures HoldsWord(s.flat, mem', b, words'[b])
    {
      if b != a {
        OneWord(words, s.flat, mem, b);
        UnbackOwner(s, b / PAGE_SIZE);
        if b / PAGE_SIZE == a / PAGE_SIZE {
          SamePlace(a, b);
        }
      }
    }
  }
}
