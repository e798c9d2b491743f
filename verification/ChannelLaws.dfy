// The numbers that frame headers and nonces spell.

module ChannelLaws {
  import opened MachineInts
  import opened DivMod
  import opened Radix
  import opened Frames
  import opened Channel

  // A header is little-endian: four times the payload's length, and in the two low bits how many
  // bytes come behind its first, which are as few as can be.
  lemma HeaderSpells(n: nat)
    requires n <= 0x3FFF_FFFF
    ensures var h := Header(n);
            && Val(0x100, h) == 4 * n + |h| - 1 && 1 <= |h| <= 4
            && (|h| == 1 <==> n < 0x40) && (|h| <= 2 <==> n < 0x4000) && (|h| <= 3 <==> n < 0x40_0000)
  {
    if n <= 0x3F { Header1(n); }
    else if n <= 0x3FFF { Header2(n); }
    else if n <= 0x3F_FFFF { Header3(n); }
    else { Header4(n); }
  }

  // A nonce is the counter, little-endian, in twenty-four bytes.
  lemma NonceSpells(n: nat)
    requires n < TWO64
    ensures |NonceAt(n)| == 24 && Val(0x100, NonceAt(n)) == n
  {
    var z: seq<byte> := seq(16, _ => 0);
    CounterRange();
    SpellValue(0x100, 8, n);
    ValConcat(0x100, Spell(0x100, 8, n), z);
    ValZeros(0x100, z);
    assert Pow(0x100, 8) * 0 == 0;
  }

  lemma CounterRange()
    ensures Pow(0x100, 8) == TWO64
  {
    assert Pow(0x100, 2) == 0x1_0000;
    PowAdd(0x100, 2, 2);
    PowAdd(0x100, 4, 4);
  }
}
