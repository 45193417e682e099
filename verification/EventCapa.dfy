/** IW_EVENT_CAPA_* (pkg/wifi/wireless.go): a set of ioctl commands kept as
    bits of six 32-bit words. */
module EventCapa {

  const SIOCIWFIRST: bv32 := 0x8B00
  const SIOCIWFIRSTPRIV: bv32 := 0x8BE0
  const WORDS := 6

  // uint32 arithmetic wraps around: commands below SIOCIWFIRST get a huge base.
  function Base(cmd: bv32): bv32 {
    if cmd >= SIOCIWFIRSTPRIV then cmd - SIOCIWFIRSTPRIV + 0x60 else cmd - SIOCIWFIRST
  }

  function Index(cmd: bv32): bv32 {
    Base(cmd) >> 5
  }

  function Bit(cmd: bv32): bv32 {
    Base(cmd) & 0x1F
  }

  function Mask(cmd: bv32): bv32 {
    1 << Bit(cmd)
  }

  // The commands that have a place in the six words.
  predicate InRange(cmd: bv32) {
    0x8B00 <= cmd < 0x8BC0 || 0x8BE0 <= cmd < 0x8C40
  }

  // The commands of the standard ioctls and their private extension.
  predicate Regular(cmd: bv32) {
    0x8B00 <= cmd < 0x8B60 || 0x8BE0 <= cmd < 0x8C40
  }

  // Commands that are kept in the same bit though they differ.
  predicate Collide(a: bv32, b: bv32) {
    0x8B60 <= a < 0x8BC0 && b == a + 0x80
  }

  predicate SharesBit(a: bv32, b: bv32) {
    a == b || Collide(a, b) || Collide(b, a)
  }

  lemma IndexInRange(cmd: bv32)
    ensures Index(cmd) < 6 <==> InRange(cmd)
  {
  }

  lemma SameBase(a: bv32, b: bv32)
    requires InRange(a) && InRange(b)
    ensures Index(a) == Index(b) && Bit(a) == Bit(b) <==> SharesBit(a, b)
  {
  }

  // Index as a position in the words.
  function Word(cmd: bv32): nat {
    Index(cmd) as nat
  }

  lemma WordInRange(cmd: bv32)
    requires InRange(cmd)
    ensures Word(cmd) < WORDS
  {
    IndexInRange(cmd);
    var i := Index(cmd);
    assert i == 0 || i == 1 || i == 2 || i == 3 || i == 4 || i == 5;
  }

  lemma WordsDiffer(a: bv32, b: bv32)
    requires InRange(a) && InRange(b)
    ensures Word(a) == Word(b) <==> Index(a) == Index(b)
  {
    IndexInRange(a);
    IndexInRange(b);
    var i, j := Index(a), Index(b);
    assert i == 0 || i == 1 || i == 2 || i == 3 || i == 4 || i == 5;
    assert j == 0 || j == 1 || j == 2 || j == 3 || j == 4 || j == 5;
  }

  // Six words of 32 commands each, from 0x8B00 on; the private commands from
  // 0x8BE0 on begin at the fourth word.
  lemma WordIs(cmd: bv32, word: bv32)
    requires word < 6
    ensures 0x8B00 + 32 * word <= cmd < 0x8B00 + 32 * (word + 1) && cmd < 0x8BC0 ==> Word(cmd) == word as nat
    ensures word >= 3 && 0x8BE0 + 32 * (word - 3) <= cmd < 0x8BE0 + 32 * (word - 2) ==> Word(cmd) == word as nat
  {
  }

  // The bit of a command in its word.
  lemma BitIs(cmd: bv32)
    ensures 0x8B00 <= cmd < 0x8BE0 ==> Mask(cmd) == 1 << ((cmd - 0x8B00) % 32)
    ensures 0x8BE0 <= cmd ==> Mask(cmd) == 1 << ((cmd - 0x8BE0) % 32)
  {
    Low5(cmd - 0x8B00);
    Low5(cmd - 0x8BE0);
    Low5(cmd - 0x8BE0 + 0x60);
    Plus96(cmd - 0x8BE0);
  }

  lemma Low5(n: bv32)
    ensures n & 0x1F == n % 32
  {
  }

  lemma Plus96(n: bv32)
    ensures (n + 0x60) & 0x1F == n & 0x1F
  {
  }

  // ---- The set ----------------------------------------------------------

  function Set(words: seq<bv32>, cmd: bv32): seq<bv32>
    requires Word(cmd) < |words|
  {
    words[Word(cmd) := Or(words[Word(cmd)], Mask(cmd))]
  }

  predicate Has(words: seq<bv32>, cmd: bv32)
    requires Word(cmd) < |words|
  {
    Meets(words[Word(cmd)], Mask(cmd))
  }

  function Or(w: bv32, m: bv32): bv32 {
    w | m
  }

  predicate Meets(w: bv32, m: bv32) {
    w & m != 0
  }

  predicate AllInRange(cmds: seq<bv32>) {
    forall i :: 0 <= i < |cmds| ==> InRange(cmds[i])
  }

  function SetAll(words: seq<bv32>, cmds: seq<bv32>): (r: seq<bv32>)
    requires |words| == WORDS && AllInRange(cmds)
    ensures |r| == WORDS
  {
    if cmds == [] then words
    else
      WordInRange(cmds[|cmds| - 1]);
      Set(SetAll(words, cmds[..|cmds| - 1]), cmds[|cmds| - 1])
  }

  lemma MasksMeet(i: bv32, j: bv32)
    requires i < 32 && j < 32
    ensures (1 as bv32 << i) & (1 as bv32 << j) != 0 <==> i == j
  {
  }

  lemma OrMeets(w: bv32, m: bv32, n: bv32)
    ensures Meets(Or(w, m), n) <==> Meets(w, n) || Meets(m, n)
  {
    assert (w | m) & n == (w & n) | (m & n);
  }

  lemma MasksShare(a: bv32, b: bv32)
    ensures Meets(Mask(a), Mask(b)) <==> Bit(a) == Bit(b)
  {
    MasksMeet(Bit(a), Bit(b));
  }

  lemma UpdateMeets(words: seq<bv32>, w: nat, o: nat, m: bv32, n: bv32)
    requires w < |words| && o < |words|
    ensures Meets(words[w := Or(words[w], m)][o], n) <==> Meets(words[o], n) || (w == o && Meets(m, n))
  {
    OrMeets(words[w], m, n);
  }

  // Bits are shared by word and mask.
  lemma SharesBitIff(a: bv32, b: bv32)
    requires InRange(a) && InRange(b)
    ensures SameBit(a, b) <==> SharesBit(a, b)
  {
    assert Word(a) == Word(b) <==> Index(a) == Index(b) by {
      WordsDiffer(a, b);
    }
    assert Meets(Mask(a), Mask(b)) <==> Bit(a) == Bit(b) by {
      MasksShare(a, b);
    }
    assert Index(a) == Index(b) && Bit(a) == Bit(b) <==> SharesBit(a, b) by {
      SameBase(a, b);
    }
  }

  predicate SameBit(a: bv32, b: bv32) {
    Word(a) == Word(b) && Meets(Mask(a), Mask(b))
  }

  // Setting a command adds it, and only what shares its bit.
  lemma HasAfterSet(words: seq<bv32>, cmd: bv32, other: bv32)
    requires Word(cmd) < |words| && Word(other) < |words|
    ensures Has(Set(words, cmd), other) <==> Has(words, other) || SameBit(cmd, other)
  {
    hide Meets, Mask, Word, Or;
    UpdateMeets(words, Word(cmd), Word(other), Mask(cmd), Mask(other));
  }

  const NONE: seq<bv32> := [0, 0, 0, 0, 0, 0]

  lemma NoneHas(cmd: bv32)
    requires Word(cmd) < WORDS
    ensures !Has(NONE, cmd)
  {
    hide Word, Mask, Meets;
    assert NONE[Word(cmd)] == 0;
    ZeroMeetsNothing(Mask(cmd));
  }

  lemma ZeroMeetsNothing(m: bv32)
    ensures !Meets(0, m)
  {
  }

  // After any sequence of SETs from zero a bit is set exactly if a command was
  // set that shares it.
  lemma {:induction false} SetAllHas(cmds: seq<bv32>, cmd: bv32)
    requires AllInRange(cmds) && InRange(cmd)
    ensures Word(cmd) < WORDS
    ensures Has(SetAll(NONE, cmds), cmd) <==> exists i :: 0 <= i < |cmds| && SharesBit(cmds[i], cmd)
  {
    hide Has, Set, SharesBit;
    WordInRange(cmd);
    if cmds == [] {
      NoneHas(cmd);
    } else {
      var last := |cmds| - 1;
      var before := SetAll(NONE, cmds[..last]);
      SetAllHas(cmds[..last], cmd);
      WordInRange(cmds[last]);
      HasAfterSet(before, cmds[last], cmd);
      SharesBitIff(cmds[last], cmd);
      assert SetAll(NONE, cmds) == Set(before, cmds[last]);
      if SharesBit(cmds[last], cmd) {
      } else if Has(before, cmd) {
        var i :| 0 <= i < last && SharesBit(cmds[..last][i], cmd);
        assert SharesBit(cmds[i], cmd);
      } else {
        forall i | 0 <= i < |cmds|
          ensures !SharesBit(cmds[i], cmd)
        {
          assert i < last ==> cmds[..last][i] == cmds[i];
        }
      }
    }
  }

  // On regular commands the words are the set of what was set.
  lemma RegularSet(cmds: seq<bv32>, cmd: bv32)
    requires (forall i :: 0 <= i < |cmds| ==> Regular(cmds[i])) && Regular(cmd)
    ensures AllInRange(cmds) && Word(cmd) < WORDS
    ensures Has(SetAll(NONE, cmds), cmd) <==> cmd in cmds
  {
    SetAllHas(cmds, cmd);
    forall i | 0 <= i < |cmds|
      ensures SharesBit(cmds[i], cmd) <==> cmds[i] == cmd
    {
      assert Regular(cmds[i]);
    }
  }

  // Elsewhere they are not: two commands that are never told apart.
  lemma CollisionsExist()
    ensures InRange(0x8B60) && InRange(0x8BE0)
    ensures AllInRange([0x8B60]) && Word(0x8BE0) < WORDS
    ensures Has(SetAll(NONE, [0x8B60]), 0x8BE0) && 0x8BE0 !in [0x8B60 as bv32]
  {
    var cmds: seq<bv32> := [0x8B60];
    SetAllHas(cmds, 0x8BE0);
    assert SharesBit(cmds[0], 0x8BE0);
  }

  // ---- The code ---------------------------------------------------------

  method IwEventCapaSet(event_capa: array<bv32>, cmd: bv32)
    requires Word(cmd) < event_capa.Length
    modifies event_capa
    ensures event_capa[..] == Set(old(event_capa[..]), cmd)
  {
    event_capa[Word(cmd)] := event_capa[Word(cmd)] | Mask(cmd);
  }

  const K_0: bv32 := Mask(0x8B04) | Mask(0x8B06) | Mask(0x8B1A)
  const K_1: bv32 := Mask(0x8B2A)

  lemma KernelNumbers()
    ensures K_0 == 0x0400_0050 && K_1 == 0x0000_0400
  {
  }

  // The four commands the kernel generates, set one by one.
  function SetFour(words: seq<bv32>): seq<bv32>
    requires 2 <= |words|
  {
    KernelWords();
    Set(Set(Set(Set(words, 0x8B04), 0x8B06), 0x8B1A), 0x8B2A)
  }

  method IwEventCapaSetKernel(event_capa: array<bv32>)
    requires 2 <= event_capa.Length
    modifies event_capa
    ensures event_capa[..] == SetFour(old(event_capa[..]))
  {
    event_capa[0] := event_capa[0] | K_0;
    event_capa[1] := event_capa[1] | K_1;
    KernelIsFourSets(old(event_capa[..]));
    assert event_capa[..] == old(event_capa[..])[0 := event_capa[0]][1 := event_capa[1]];
  }

  // Two words changed at once are four SETs.
  lemma KernelIsFourSets(words: seq<bv32>)
    requires 2 <= |words|
    ensures SetFour(words) == words[0 := words[0] | K_0][1 := words[1] | K_1]
  {
    KernelWords();
    OrAssociates(words[0], Mask(0x8B04), Mask(0x8B06), Mask(0x8B1A));
  }

  const KERNEL_EVENTS: seq<bv32> := [0x8B04, 0x8B06, 0x8B1A, 0x8B2A]

  // From zero, exactly those four commands are in the set after SET_KERNEL.
  lemma KernelSet(cmd: bv32)
    requires Regular(cmd)
    ensures Word(cmd) < WORDS
    ensures Has(SetFour(NONE), cmd) <==> cmd in KERNEL_EVENTS
  {
    hide Has, SetFour, Set;
    RegularSet(KERNEL_EVENTS, cmd);
    SetAllOfFour(NONE);
  }

  lemma SetAllOfFour(words: seq<bv32>)
    requires |words| == WORDS
    ensures AllInRange(KERNEL_EVENTS)
    ensures SetAll(words, KERNEL_EVENTS) == SetFour(words)
  {
    KernelWords();
    var cmds := KERNEL_EVENTS;
    assert cmds[..3] == [0x8B04, 0x8B06, 0x8B1A];
    assert cmds[..3][..2] == [0x8B04, 0x8B06];
    assert cmds[..3][..2][..1] == [0x8B04];
    assert cmds[..3][..2][..1][..0] == [];
    var one := Set(words, 0x8B04);
    assert SetAll(words, [0x8B04]) == one;
    var two := Set(one, 0x8B06);
    assert SetAll(words, [0x8B04, 0x8B06]) == two;
    var three := Set(two, 0x8B1A);
    assert SetAll(words, [0x8B04, 0x8B06, 0x8B1A]) == three;
    assert SetAll(words, cmds) == Set(three, 0x8B2A);
  }

  lemma KernelWords()
    ensures Word(0x8B04) == Word(0x8B06) == Word(0x8B1A) == 0 && Word(0x8B2A) == 1
  {
    assert Index(0x8B04) == 0 && Index(0x8B06) == 0 && Index(0x8B1A) == 0 && Index(0x8B2A) == 1;
  }

  lemma OrAssociates(w: bv32, a: bv32, b: bv32, c: bv32)
    ensures w | a | b | c == w | (a | b | c)
  {
  }
}
