/** Two published addresses: what the checksum, its two constants, the character set and the expansion of the
    human-readable part amount to on the examples of BIP-173 and BIP-350. */
module PublishedAddresses {
  import opened Bech32
  import opened Bech32Twins
  import opened BitGroups
  import opened Radix
  import opened SegWit

  /** After this much of the data part of a mainnet address the checksum register holds this word. */
  ghost predicate After(body: string, word: bv32)
  {
    AllSymbols(body) && Fold(1, Words(ChecksumInput("bc", SymbolsOf(body)))) == word
  }

  /** The character set symbol by symbol. */
  ghost function Letter(symbol: nat): char
    requires symbol < 32
  {
    if symbol < 16 then
      if symbol < 8 then
        if symbol < 4 then
          if symbol == 0 then 'q' else if symbol == 1 then 'p' else if symbol == 2 then 'z' else 'r'
        else
          if symbol == 4 then 'y' else if symbol == 5 then '9' else if symbol == 6 then 'x' else '8'
      else
        if symbol < 12 then
          if symbol == 8 then 'g' else if symbol == 9 then 'f' else if symbol == 10 then '2' else 't'
        else
          if symbol == 12 then 'v' else if symbol == 13 then 'd' else if symbol == 14 then 'w' else '0'
    else
      if symbol < 24 then
        if symbol < 20 then
          if symbol == 16 then 's' else if symbol == 17 then '3' else if symbol == 18 then 'j' else 'n'
        else
          if symbol == 20 then '5' else if symbol == 21 then '4' else if symbol == 22 then 'k' else 'h'
      else
        if symbol < 28 then
          if symbol == 24 then 'c' else if symbol == 25 then 'e' else if symbol == 26 then '6' else 'm'
        else
          if symbol == 28 then 'u' else if symbol == 29 then 'a' else if symbol == 30 then '7' else 'l'
  }

  lemma LetterOfCharset(symbol: nat)
    requires symbol < 32
    ensures |CHARSET| == 32 && CHARSET[symbol] == Letter(symbol)
  {
  }

  /** One more character in closed form: its symbol, and the register then. */
  lemma Typed(body: string, group: string, count: nat, word: bv32, symbol: nat, next: bv32)
    requires count < |group| && After(body + group[..count], word)
    requires symbol < 32 && Letter(symbol) == group[count]
    requires Next(word) ^ Word(symbol) == next
    ensures After(body + group[..count + 1], next)
  {
    hide Next, Word, Symbol, Step, Xor, ExpandedHrp, Letter;
    LetterOfCharset(symbol);
    CharsetDistinct(symbol);
    var typed, longer := body + group[..count], body + group[..count + 1];
    assert longer == typed + [group[count]];
    var before, after := ChecksumInput("bc", SymbolsOf(typed)), ChecksumInput("bc", SymbolsOf(longer));
    assert after == before + [symbol];
    var n := |before|;
    assert Words(after)[..n] == Words(before) && Words(after)[n] == Word(symbol);
    StepOf(word, Word(symbol));
  }

  lemma StepOf(word: bv32, value: bv32)
    ensures Step(word, value) == Next(word) ^ value
  {
    hide Step, Next, Xor;
    NextIsStep(word);
    StepWithValue(word, value);
  }

  lemma StepWithValue(word: bv32, value: bv32)
    ensures Step(word, value) == Step(word, 0) ^ value
  {
    hide Taps, Shifted;
  }

  lemma Started()
    ensures After("", 0x2318043)
  {
    assert ChecksumInput("bc", SymbolsOf("")) == [3, 3, 0, 2, 3];
    assert Words([3, 3, 0, 2, 3]) == [3, 3, 0, 2, 3];
    QuietSteps();
  }

  lemma QuietSteps()
    ensures Fold(1, [3, 3, 0, 2, 3]) == 0x2318043
  {
    hide Fold;
    assert Fold(1, []) == 1 by { NoFold(); }
    var none: seq<bv32> := [];
    Quiet(none, 1, 3);
    Quiet(none + [3], 0x23, 3);
    Quiet(none + [3] + [3], 0x463, 0);
    Quiet(none + [3] + [3] + [0], 0x8c60, 2);
    Quiet(none + [3] + [3] + [0] + [2], 0x118c02, 3);
    assert none + [3] + [3] + [0] + [2] + [3] == [3, 3, 0, 2, 3];
  }

  lemma NoFold()
    ensures Fold(1, []) == 1
  {
  }

  lemma Quiet(words: seq<bv32>, word: bv32, value: bv32)
    requires Fold(1, words) == word && word < 0x200_0000 && value < 32
    ensures Fold(1, words + [value]) == (word << 5) ^ value
  {
    hide Step;
    QuietStep(word, value);
    assert (words + [value])[..|words|] == words;
  }

  lemma VersionZero0(body: string)
    requires After(body, 0x2318043)
    ensures After(body + "qw508d6qej", 0x2ca65529)
  {
    hide After;
    var group := "qw508d6qej";
    assert body + group[..0] == body && group[..10] == group;
    Typed(body, group, 0, 0x2318043, 0, 0x3d5a5fd2);
    Typed(body, group, 1, 0x3d5a5fd2, 14, 0x4ec3cb7);
    Typed(body, group, 2, 0x4ec3cb7, 20, 0x3bd71899);
    Typed(body, group, 3, 0x3bd71899, 15, 0x87e0c09);
    Typed(body, group, 4, 0x87e0c09, 7, 0x116098dd);
    Typed(body, group, 5, 0x116098dd, 13, 0x11512870);
    Typed(body, group, 6, 0x11512870, 26, 0x17673dc7);
    Typed(body, group, 7, 0x17673dc7, 0, 0xc9f52e2);
    Typed(body, group, 8, 0xc9f52e2, 25, 0x2b1bcbce);
    Typed(body, group, 9, 0x2b1bcbce, 18, 0x2ca65529);
  }

  lemma VersionZero1(body: string)
    requires After(body, 0x2ca65529)
    ensures After(body + "xtdg4y5r3z", 0x3a8fd3c)
  {
    hide After;
    var group := "xtdg4y5r3z";
    assert body + group[..0] == body && group[..10] == group;
    Typed(body, group, 0, 0x2ca65529, 6, 0x62f5002);
    Typed(body, group, 1, 0x62f5002, 11, 0x18d0d994);
    Typed(body, group, 2, 0x18d0d994, 13, 0x39f818aa);
    Typed(body, group, 3, 0x39f818aa, 8, 0x36f45ddc);
    Typed(body, group, 4, 0x36f45ddc, 21, 0x14e73324);
    Typed(body, group, 5, 0x14e73324, 4, 0x7f4d934);
    Typed(body, group, 6, 0x7f4d934, 20, 0x23a1ff4b);
    Typed(body, group, 7, 0x23a1ff4b, 3, 0x2541dc62);
    Typed(body, group, 8, 0x2541dc62, 17, 0x247f608f);
    Typed(body, group, 9, 0x247f608f, 2, 0x3a8fd3c);
  }

  lemma VersionZero2(body: string)
    requires After(body, 0x3a8fd3c)
    ensures After(body + "arvary0c5x", 0x2f2cecb)
  {
    hide After;
    var group := "arvary0c5x";
    assert body + group[..0] == body && group[..10] == group;
    Typed(body, group, 0, 0x3a8fd3c, 29, 0xe75f02f);
    Typed(body, group, 1, 0xe75f02f, 3, 0xd25c5c6);
    Typed(body, group, 2, 0xd25c5c6, 12, 0x1c492f5b);
    Typed(body, group, 3, 0x1c492f5b, 29, 0xc964f37);
    Typed(body, group, 4, 0xc964f37, 3, 0x2a387174);
    Typed(body, group, 5, 0x2a387174, 4, 0x8d1027f);
    Typed(body, group, 6, 0x8d1027f, 15, 0x4815615);
    Typed(body, group, 7, 0x4815615, 24, 0x367a4cd5);
    Typed(body, group, 8, 0x367a4cd5, 20, 0x5251205);
    Typed(body, group, 9, 0x5251205, 6, 0x2f2cecb);
  }

  lemma VersionZero3(body: string)
    requires After(body, 0x2f2cecb)
    ensures After(body + "w7kv8f3t4", 0x1)
  {
    hide After;
    var group := "w7kv8f3t4";
    assert body + group[..0] == body && group[..9] == group;
    Typed(body, group, 0, 0x2f2cecb, 14, 0x25338edc);
    Typed(body, group, 1, 0x25338edc, 30, 0x2a353740);
    Typed(body, group, 2, 0x2a353740, 22, 0x979c4ed);
    Typed(body, group, 3, 0x979c4ed, 12, 0x31998456);
    Typed(body, group, 4, 0x31998456, 7, 0x2466dba9);
    Typed(body, group, 5, 0x2466dba9, 9, 0x9f99f7);
    Typed(body, group, 6, 0x9f99f7, 17, 0x13f33ef1);
    Typed(body, group, 7, 0x13f33ef1, 11, 0x384fba44);
    Typed(body, group, 8, 0x384fba44, 21, 0x1);
  }

  lemma VersionOne0(body: string)
    requires After(body, 0x2318043)
    ensures After(body + "p0xlxvlhem", 0x12235191)
  {
    hide After;
    var group := "p0xlxvlhem";
    assert body + group[..0] == body && group[..10] == group;
    Typed(body, group, 0, 0x2318043, 1, 0x3d5a5fd3);
    Typed(body, group, 1, 0x3d5a5fd3, 15, 0x4ec3c96);
    Typed(body, group, 2, 0x4ec3c96, 6, 0x3bd71cab);
    Typed(body, group, 3, 0x3bd71cab, 31, 0x87e8a59);
    Typed(body, group, 4, 0x87e8a59, 6, 0x117052dc);
    Typed(body, group, 5, 0x117052dc, 12, 0x13486851);
    Typed(body, group, 6, 0x13486851, 31, 0x2f256e50);
    Typed(body, group, 7, 0x2f256e50, 23, 0xd226881);
    Typed(body, group, 8, 0xd226881, 25, 0x1cbc87ae);
    Typed(body, group, 9, 0x1cbc87ae, 27, 0x12235191);
  }

  lemma VersionOne1(body: string)
    requires After(body, 0x12235191)
    ensures After(body + "ja6c4dqv22", 0x2b3bf1ee)
  {
    hide After;
    var group := "ja6c4dqv22";
    assert body + group[..0] == body && group[..10] == group;
    Typed(body, group, 0, 0x12235191, 18, 0x242565d);
    Typed(body, group, 1, 0x242565d, 29, 0x33209c0f);
    Typed(body, group, 2, 0x33209c0f, 26, 0x82f8726);
    Typed(body, group, 3, 0x82f8726, 24, 0x1b51fd22);
    Typed(body, group, 4, 0x1b51fd22, 21, 0x32b6d9c0);
    Typed(body, group, 5, 0x32b6d9c0, 13, 0x3ae73ed1);
    Typed(body, group, 6, 0x3ae73ed1, 0, 0x2e7ac506);
    Typed(body, group, 7, 0x2e7ac506, 12, 0x26d7025a);
    Typed(body, group, 8, 0x26d7025a, 10, 0x2dcef026);
    Typed(body, group, 9, 0x2dcef026, 10, 0x2b3bf1ee);
  }

  lemma VersionOne2(body: string)
    requires After(body, 0x2b3bf1ee)
    ensures After(body + "uapctqupfh", 0x3d89be85)
  {
    hide After;
    var group := "uapctqupfh";
    assert body + group[..0] == body && group[..10] == group;
    Typed(body, group, 0, 0x2b3bf1ee, 28, 0x28a11127);
    Typed(body, group, 1, 0x28a11127, 29, 0x20975fb4);
    Typed(body, group, 2, 0x20975fb4, 1, 0x38ff9432);
    Typed(body, group, 3, 0x38ff9432, 24, 0x1605cecc);
    Typed(body, group, 4, 0x1605cecc, 11, 0x20c13389);
    Typed(body, group, 5, 0x20c13389, 0, 0x32321393);
    Typed(body, group, 6, 0x32321393, 28, 0x2a7e74a0);
    Typed(body, group, 7, 0x2a7e74a0, 1, 0x11b8fa);
    Typed(body, group, 8, 0x11b8fa, 9, 0x2371f49);
    Typed(body, group, 9, 0x2371f49, 23, 0x3d89be85);
  }

  lemma VersionOne3(body: string)
    requires After(body, 0x3d89be85)
    ensures After(body + "lxm9h8z3k2", 0x1a90e157)
  {
    hide After;
    var group := "lxm9h8z3k2";
    assert body + group[..0] == body && group[..10] == group;
    Typed(body, group, 0, 0x3d89be85, 31, 0x1e901646);
    Typed(body, group, 1, 0x1e901646, 6, 0x2cdb3b3e);
    Typed(body, group, 2, 0x2cdb3b3e, 27, 0x98292ff);
    Typed(body, group, 3, 0x98292ff, 5, 0x2ef3461f);
    Typed(body, group, 4, 0x2ef3461f, 23, 0x37e76161);
    Typed(body, group, 5, 0x37e76161, 7, 0x3680a496);
    Typed(body, group, 6, 0x3680a496, 2, 0x1a781a73);
    Typed(body, group, 7, 0x1a781a73, 17, 0x178a33e4);
    Typed(body, group, 8, 0x178a33e4, 22, 0x113e9694);
    Typed(body, group, 9, 0x113e9694, 10, 0x1a90e157);
  }

  lemma VersionOne4(body: string)
    requires After(body, 0x1a90e157)
    ensures After(body + "e72q4k9hcz", 0x351fc97f)
  {
    hide After;
    var group := "e72q4k9hcz";
    assert body + group[..0] == body && group[..10] == group;
    Typed(body, group, 0, 0x1a90e157, 25, 0xa95576c);
    Typed(body, group, 1, 0xa95576c, 30, 0x3761a3d6);
    Typed(body, group, 2, 0x3761a3d6, 10, 0x2658f27b);
    Typed(body, group, 3, 0x2658f27b, 0, 0x3c30f40c);
    Typed(body, group, 4, 0x3c30f40c, 21, 0x29b9476c);
    Typed(body, group, 5, 0x29b9476c, 22, 0x39d96df);
    Typed(body, group, 6, 0x39d96df, 5, 0x8d88c57);
    Typed(body, group, 7, 0x8d88c57, 23, 0x5b0930d);
    Typed(body, group, 8, 0x5b0930d, 24, 0x1042efd5);
    Typed(body, group, 9, 0x1042efd5, 2, 0x351fc97f);
  }

  lemma VersionOne5(body: string)
    requires After(body, 0x351fc97f)
    ensures After(body + "7vqzk5jj0", 0x2bc830a3)
  {
    hide After;
    var group := "7vqzk5jj0";
    assert body + group[..0] == body && group[..9] == group;
    Typed(body, group, 0, 0x351fc97f, 30, 0x12fff0fd);
    Typed(body, group, 1, 0x12fff0fd, 12, 0x19d67bc3);
    Typed(body, group, 2, 0x19d67bc3, 0, 0x192c5247);
    Typed(body, group, 3, 0x192c5247, 2, 0x66962c5);
    Typed(body, group, 4, 0x66962c5, 22, 0x10168169);
    Typed(body, group, 5, 0x10168169, 20, 0x3f921ee9);
    Typed(body, group, 6, 0x3f921ee9, 18, 0x268e4c79);
    Typed(body, group, 7, 0x268e4c79, 18, 0x26e7345e);
    Typed(body, group, 8, 0x26e7345e, 15, 0x2bc830a3);
  }

  /** A body of this length whose register ends at the wanted constant is a valid mainnet address. */
  lemma ValidBody(body: string)
    requires AllSymbols(body) && (|body| == 39 || |body| == 59)
    requires SymbolsOf(body)[0] <= 16 && After(body, if SymbolsOf(body)[0] == 0 then 1 else 0x2bc830a3)
    requires |body| == 59 ==> SymbolsOf(body)[52] % 16 == 0
    ensures ValidAddress("bc" + "1" + body)
  {
    hide Fold, Words, AllSymbols, LastPosition, Lowered, MixedCase, Value, Regroupable, Symbol;
    var data := SymbolsOf(body);
    TextOfSymbols(body);
    WellSplitText("bc", data);
    var program := data[1..|data| - 6];
    PaddingMeans(program);
    assert |program| == 52 ==> program[51] == data[52];
  }

  /** The example of BIP-173. */
  lemma PublishedVersionZero()
    ensures ValidAddress("bc" + "1" + "qw508d6qej" + "xtdg4y5r3z" + "arvary0c5x" + "w7kv8f3t4")
  {
    hide After, ValidAddress, AllSymbols, SymbolsOf;
    var body := "qw508d6qej" + "xtdg4y5r3z" + "arvary0c5x" + "w7kv8f3t4";
    Started();
    VersionZero0("");
    assert "" + "qw508d6qej" == "qw508d6qej";
    VersionZero1("qw508d6qej");
    VersionZero2("qw508d6qej" + "xtdg4y5r3z");
    VersionZero3("qw508d6qej" + "xtdg4y5r3z" + "arvary0c5x");
    Accepted(body, 0x1);
    SymbolAt(body, 0, 0);
    ValidBody(body);
    assert "bc" + "1" + body == "bc" + "1" + "qw508d6qej" + "xtdg4y5r3z" + "arvary0c5x" + "w7kv8f3t4";
  }

  /** The example of BIP-350. */
  lemma PublishedVersionOne()
    ensures ValidAddress(
              "bc" + "1" + "p0xlxvlhem" + "ja6c4dqv22" + "uapctqupfh" + "lxm9h8z3k2" + "e72q4k9hcz" + "7vqzk5jj0")
  {
    hide After, ValidAddress, AllSymbols, SymbolsOf;
    var part := "p0xlxvlhem" + "ja6c4dqv22" + "uapctqupfh";
    var body := part + "lxm9h8z3k2" + "e72q4k9hcz" + "7vqzk5jj0";
    Started();
    VersionOne0("");
    assert "" + "p0xlxvlhem" == "p0xlxvlhem";
    VersionOne1("p0xlxvlhem");
    VersionOne2("p0xlxvlhem" + "ja6c4dqv22");
    VersionOne3(part);
    VersionOne4(part + "lxm9h8z3k2");
    VersionOne5(part + "lxm9h8z3k2" + "e72q4k9hcz");
    Accepted(body, 0x2bc830a3);
    SymbolAt(body, 0, 1);
    SymbolAt(body, 52, 0);
    ValidBody(body);
    assert "bc" + "1" + body ==
      "bc" + "1" + "p0xlxvlhem" + "ja6c4dqv22" + "uapctqupfh" + "lxm9h8z3k2" + "e72q4k9hcz" + "7vqzk5jj0";
  }

  lemma Accepted(body: string, word: bv32)
    requires After(body, word)
    ensures AllSymbols(body)
  {
  }

  lemma SymbolAt(body: string, index: nat, symbol: nat)
    requires AllSymbols(body) && index < |body| && symbol < 32 && body[index] == Letter(symbol)
    ensures SymbolsOf(body)[index] == symbol
  {
    hide Symbol, Letter;
    LetterOfCharset(symbol);
    CharsetDistinct(symbol);
  }
}
