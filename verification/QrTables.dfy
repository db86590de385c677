/** The constants of the forty symbol versions (tables 1 and 9 of ISO/IEC 18004). */
module QrTables {
  import opened Sizes

  const MIN_VERSION := 1
  const MAX_VERSION := 40

  /** Error correction levels, from the weakest to the strongest. */
  datatype Ecc = Low | Medium | Quartile | High

  function Rank(ecl: Ecc): nat {
    match ecl
    case Low => 0
    case Medium => 1
    case Quartile => 2
    case High => 3
  }

  /** One value for each level. */
  datatype Row = Row(low: nat, medium: nat, quartile: nat, high: nat) {
    function Of(ecl: Ecc): nat {
      match ecl
      case Low => low
      case Medium => medium
      case Quartile => quartile
      case High => high
    }
  }

  /** Error correction codewords in each block. */
  function EccCodewordsPerBlock(ver: nat): Row {
    match ver
    case 1 => Row(7, 10, 13, 17)
    case 2 => Row(10, 16, 22, 28)
    case 3 => Row(15, 26, 18, 22)
    case 4 => Row(20, 18, 26, 16)
    case 5 => Row(26, 24, 18, 22)
    case 6 => Row(18, 16, 24, 28)
    case 7 => Row(20, 18, 18, 26)
    case 8 => Row(24, 22, 22, 26)
    case 9 => Row(30, 22, 20, 24)
    case 10 => Row(18, 26, 24, 28)
    case 11 => Row(20, 30, 28, 24)
    case 12 => Row(24, 22, 26, 28)
    case 13 => Row(26, 22, 24, 22)
    case 14 => Row(30, 24, 20, 24)
    case 15 => Row(22, 24, 30, 24)
    case 16 => Row(24, 28, 24, 30)
    case 17 => Row(28, 28, 28, 28)
    case 18 => Row(30, 26, 28, 28)
    case 19 => Row(28, 26, 26, 26)
    case 20 => Row(28, 26, 30, 28)
    case 21 => Row(28, 26, 28, 30)
    case 22 => Row(28, 28, 30, 24)
    case 23 => Row(30, 28, 30, 30)
    case 24 => Row(30, 28, 30, 30)
    case 25 => Row(26, 28, 30, 30)
    case 26 => Row(28, 28, 28, 30)
    case 27 => Row(30, 28, 30, 30)
    case 28 => Row(30, 28, 30, 30)
    case 29 => Row(30, 28, 30, 30)
    case 30 => Row(30, 28, 30, 30)
    case 31 => Row(30, 28, 30, 30)
    case 32 => Row(30, 28, 30, 30)
    case 33 => Row(30, 28, 30, 30)
    case 34 => Row(30, 28, 30, 30)
    case 35 => Row(30, 28, 30, 30)
    case 36 => Row(30, 28, 30, 30)
    case 37 => Row(30, 28, 30, 30)
    case 38 => Row(30, 28, 30, 30)
    case 39 => Row(30, 28, 30, 30)
    case _ => Row(30, 28, 30, 30)
  }

  /** Number of blocks. */
  function NumErrorCorrectionBlocks(ver: nat): Row {
    match ver
    case 1 => Row(1, 1, 1, 1)
    case 2 => Row(1, 1, 1, 1)
    case 3 => Row(1, 1, 2, 2)
    case 4 => Row(1, 2, 2, 4)
    case 5 => Row(1, 2, 4, 4)
    case 6 => Row(2, 4, 4, 4)
    case 7 => Row(2, 4, 6, 5)
    case 8 => Row(2, 4, 6, 6)
    case 9 => Row(2, 5, 8, 8)
    case 10 => Row(4, 5, 8, 8)
    case 11 => Row(4, 5, 8, 11)
    case 12 => Row(4, 8, 10, 11)
    case 13 => Row(4, 9, 12, 16)
    case 14 => Row(4, 9, 16, 16)
    case 15 => Row(6, 10, 12, 18)
    case 16 => Row(6, 10, 17, 16)
    case 17 => Row(6, 11, 16, 19)
    case 18 => Row(6, 13, 18, 21)
    case 19 => Row(7, 14, 21, 25)
    case 20 => Row(8, 16, 20, 25)
    case 21 => Row(8, 17, 23, 25)
    case 22 => Row(9, 17, 23, 34)
    case 23 => Row(9, 18, 25, 30)
    case 24 => Row(10, 20, 27, 32)
    case 25 => Row(12, 21, 29, 35)
    case 26 => Row(12, 23, 34, 37)
    case 27 => Row(12, 25, 34, 40)
    case 28 => Row(13, 26, 35, 42)
    case 29 => Row(14, 28, 38, 45)
    case 30 => Row(15, 29, 40, 48)
    case 31 => Row(16, 31, 43, 51)
    case 32 => Row(17, 33, 45, 54)
    case 33 => Row(18, 35, 48, 57)
    case 34 => Row(19, 37, 51, 60)
    case 35 => Row(19, 38, 53, 63)
    case 36 => Row(20, 40, 56, 66)
    case 37 => Row(21, 43, 59, 70)
    case 38 => Row(22, 45, 62, 74)
    case 39 => Row(24, 47, 65, 77)
    case _ => Row(25, 49, 68, 81)
  }

  /** Modules left for codewords and remainder bits once the function patterns are drawn. */
  function NumRawDataModules(ver: nat): int {
    var all := (16 * ver + 128) * ver + 64;
    if ver < 2 then all
    else
      var numAlign := ver / 7 + 2;
      all - ((25 * numAlign - 10) * numAlign - 55) - (if ver >= 7 then 36 else 0)
  }

  predicate ValidVersion(ver: int) {
    MIN_VERSION <= ver <= MAX_VERSION
  }

  /** What the stages of the encoder rely on: at each level the blocks exist, each has a data
      codeword, none is longer than the field allows, and a stronger level holds less. */
  ghost predicate RowFits(raw: nat, ecc: Row, blocks: Row) {
    && LevelFits(raw, ecc.low, blocks.low) && LevelFits(raw, ecc.medium, blocks.medium)
    && LevelFits(raw, ecc.quartile, blocks.quartile) && LevelFits(raw, ecc.high, blocks.high)
    && raw - ecc.low * blocks.low > raw - ecc.medium * blocks.medium
       > raw - ecc.quartile * blocks.quartile > raw - ecc.high * blocks.high
  }

  ghost predicate LevelFits(raw: nat, ecc: nat, blocks: nat) {
    0 < blocks && 0 < ecc <= 30 && (ecc + 1) * blocks <= raw < 254 * blocks
  }

  ghost predicate VersionFits(ver: nat) {
    208 <= NumRawDataModules(ver) <= 29648
    && RowFits(NumRawDataModules(ver) / 8, EccCodewordsPerBlock(ver), NumErrorCorrectionBlocks(ver))
  }

  // One version at a time, so that every number is a constant.

  lemma Version1() ensures VersionFits(1) { assert NumRawDataModules(1) == 208; }
  lemma Version2() ensures VersionFits(2) { assert NumRawDataModules(2) == 359; }
  lemma Version3() ensures VersionFits(3) { assert NumRawDataModules(3) == 567; }
  lemma Version4() ensures VersionFits(4) { assert NumRawDataModules(4) == 807; }
  lemma Version5() ensures VersionFits(5) { assert NumRawDataModules(5) == 1079; }
  lemma Version6() ensures VersionFits(6) { assert NumRawDataModules(6) == 1383; }
  lemma Version7() ensures VersionFits(7) { assert NumRawDataModules(7) == 1568; }
  lemma Version8() ensures VersionFits(8) { assert NumRawDataModules(8) == 1936; }
  lemma Version9() ensures VersionFits(9) { assert NumRawDataModules(9) == 2336; }
  lemma Version10() ensures VersionFits(10) { assert NumRawDataModules(10) == 2768; }
  lemma Version11() ensures VersionFits(11) { assert NumRawDataModules(11) == 3232; }
  lemma Version12() ensures VersionFits(12) { assert NumRawDataModules(12) == 3728; }
  lemma Version13() ensures VersionFits(13) { assert NumRawDataModules(13) == 4256; }
  lemma Version14() ensures VersionFits(14) { assert NumRawDataModules(14) == 4651; }
  lemma Version15() ensures VersionFits(15) { assert NumRawDataModules(15) == 5243; }
  lemma Version16() ensures VersionFits(16) { assert NumRawDataModules(16) == 5867; }
  lemma Version17() ensures VersionFits(17) { assert NumRawDataModules(17) == 6523; }
  lemma Version18() ensures VersionFits(18) { assert NumRawDataModules(18) == 7211; }
  lemma Version19() ensures VersionFits(19) { assert NumRawDataModules(19) == 7931; }
  lemma Version20() ensures VersionFits(20) { assert NumRawDataModules(20) == 8683; }
  lemma Version21() ensures VersionFits(21) { assert NumRawDataModules(21) == 9252; }
  lemma Version22() ensures VersionFits(22) { assert NumRawDataModules(22) == 10068; }
  lemma Version23() ensures VersionFits(23) { assert NumRawDataModules(23) == 10916; }
  lemma Version24() ensures VersionFits(24) { assert NumRawDataModules(24) == 11796; }
  lemma Version25() ensures VersionFits(25) { assert NumRawDataModules(25) == 12708; }
  lemma Version26() ensures VersionFits(26) { assert NumRawDataModules(26) == 13652; }
  lemma Version27() ensures VersionFits(27) { assert NumRawDataModules(27) == 14628; }
  lemma Version28() ensures VersionFits(28) { assert NumRawDataModules(28) == 15371; }
  lemma Version29() ensures VersionFits(29) { assert NumRawDataModules(29) == 16411; }
  lemma Version30() ensures VersionFits(30) { assert NumRawDataModules(30) == 17483; }
  lemma Version31() ensures VersionFits(31) { assert NumRawDataModules(31) == 18587; }
  lemma Version32() ensures VersionFits(32) { assert NumRawDataModules(32) == 19723; }
  lemma Version33() ensures VersionFits(33) { assert NumRawDataModules(33) == 20891; }
  lemma Version34() ensures VersionFits(34) { assert NumRawDataModules(34) == 22091; }
  lemma Version35() ensures VersionFits(35) { assert NumRawDataModules(35) == 23008; }
  lemma Version36() ensures VersionFits(36) { assert NumRawDataModules(36) == 24272; }
  lemma Version37() ensures VersionFits(37) { assert NumRawDataModules(37) == 25568; }
  lemma Version38() ensures VersionFits(38) { assert NumRawDataModules(38) == 26896; }
  lemma Version39() ensures VersionFits(39) { assert NumRawDataModules(39) == 28256; }
  lemma Version40() ensures VersionFits(40) { assert NumRawDataModules(40) == 29648; }

  lemma AllVersionsFit(ver: nat)
    requires ValidVersion(ver)
    ensures VersionFits(ver)
  {
    hide VersionFits;
    match ver
    case 1 => Version1();
    case 2 => Version2();
    case 3 => Version3();
    case 4 => Version4();
    case 5 => Version5();
    case 6 => Version6();
    case 7 => Version7();
    case 8 => Version8();
    case 9 => Version9();
    case 10 => Version10();
    case 11 => Version11();
    case 12 => Version12();
    case 13 => Version13();
    case 14 => Version14();
    case 15 => Version15();
    case 16 => Version16();
    case 17 => Version17();
    case 18 => Version18();
    case 19 => Version19();
    case 20 => Version20();
    case 21 => Version21();
    case 22 => Version22();
    case 23 => Version23();
    case 24 => Version24();
    case 25 => Version25();
    case 26 => Version26();
    case 27 => Version27();
    case 28 => Version28();
    case 29 => Version29();
    case 30 => Version30();
    case 31 => Version31();
    case 32 => Version32();
    case 33 => Version33();
    case 34 => Version34();
    case 35 => Version35();
    case 36 => Version36();
    case 37 => Version37();
    case 38 => Version38();
    case 39 => Version39();
    case _ => Version40();
  }

  // ---- Codeword counts ----

  function RawCodewords(ver: nat): (n: nat)
    requires ValidVersion(ver)
  {
    AllVersionsFit(ver);
    NumRawDataModules(ver) / 8
  }

  function NumBlocks(ver: nat, ecl: Ecc): nat {
    NumErrorCorrectionBlocks(ver).Of(ecl)
  }

  function EccLength(ver: nat, ecl: Ecc): nat {
    EccCodewordsPerBlock(ver).Of(ecl)
  }

  function NumDataCodewords(ver: nat, ecl: Ecc): (n: int)
    requires ValidVersion(ver)
  {
    RawCodewords(ver) - EccLength(ver, ecl) * NumBlocks(ver, ecl)
  }

  /** Every block of every version has a data codeword and a length within the field. */
  lemma BlocksFit(ver: nat, ecl: Ecc)
    requires ValidVersion(ver)
    ensures 0 < NumBlocks(ver, ecl) && 0 < EccLength(ver, ecl) <= 30
    ensures EccLength(ver, ecl) < RawCodewords(ver) / NumBlocks(ver, ecl) < 254
    ensures NumDataCodewords(ver, ecl) > 0
  {
    hide NumRawDataModules, EccCodewordsPerBlock, NumErrorCorrectionBlocks;
    AllVersionsFit(ver);
    QuotientBounds(RawCodewords(ver), EccLength(ver, ecl), NumBlocks(ver, ecl));
  }

  lemma QuotientBounds(raw: nat, ecc: nat, blocks: nat)
    requires LevelFits(raw, ecc, blocks)
    ensures ecc < raw / blocks < 254 && raw - ecc * blocks > 0
  {
    assert (ecc + 1) * blocks == ecc * blocks + blocks;
    QuotientAtLeast(raw, blocks, ecc + 1);
    QuotientBelow(raw, blocks, 254);
  }

  lemma QuotientAtLeast(raw: nat, blocks: nat, m: nat)
    requires blocks > 0 && m * blocks <= raw
    ensures m <= raw / blocks
  {
    var q := raw / blocks;
    ProductSign(m - q - 1, blocks);
    assert (m - q - 1) * blocks == m * blocks - q * blocks - blocks;
  }

  lemma QuotientBelow(raw: nat, blocks: nat, m: nat)
    requires blocks > 0 && raw < m * blocks
    ensures raw / blocks < m
  {
    var q := raw / blocks;
    ProductSign(q - m, blocks);
    assert (q - m) * blocks == q * blocks - m * blocks;
  }

  /** A stronger level holds fewer data codewords. */
  lemma StrongerHoldsLess(ver: nat, weak: Ecc, strong: Ecc)
    requires ValidVersion(ver) && Rank(weak) < Rank(strong)
    ensures NumDataCodewords(ver, weak) > NumDataCodewords(ver, strong)
  {
    hide NumRawDataModules, EccCodewordsPerBlock, NumErrorCorrectionBlocks;
    AllVersionsFit(ver);
  }
}
