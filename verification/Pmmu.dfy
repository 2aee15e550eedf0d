/** The pseudo memory management unit: byte and halfword selection on the read side,
    read-merge-write on the store side, around a BRAM of 32-bit words. */
module Pmmu {
  import opened Bits

  const WORDS := 1024

  type Bank = m: seq<Word> | |m| == WORDS witness seq(WORDS, i => 0)

  const BYTE_SIZE := 0
  const HALFWORD_SIZE := 1

  /** word_addr = byte_addr_i[WORDS+1:2] */
  function WordAddr(byteAddr: Word): (i: nat)
    ensures i < WORDS
  {
    byteAddr / 4 % WORDS
  }

  /** Byte lane `k` of a stored word. */
  function Lane(w: Word, k: nat): (b: nat)
    requires k < 4
    ensures b < 0x100
  {
    if k == 0 then w % 0x100
    else if k == 1 then w / 0x100 % 0x100
    else if k == 2 then w / 0x1_0000 % 0x100
    else w / 0x100_0000
  }

  function Half(w: Word, upper: bool): (h: nat)
    ensures h < 0x1_0000
  {
    if upper then w / 0x1_0000 else w % 0x1_0000
  }

  /** rd_o: with the read strobe active the selected part is extended, otherwise the whole
      word passes through. */
  function ReadOut(funct3: nat, byteAddr: Word, stored: Word, reading: bool): Word
    requires funct3 < 8
  {
    var signedOp := funct3 < 4;
    if reading && funct3 % 4 == BYTE_SIZE then
      var b := Lane(stored, byteAddr % 4);
      if signedOp && b >= 0x80 then 0xFFFF_FF00 + b else b
    else if reading && funct3 % 4 == HALFWORD_SIZE then
      var h := Half(stored, byteAddr / 2 % 2 == 1);
      if signedOp && h >= 0x8000 then 0xFFFF_0000 + h else h
    else stored
  }

  lemma HighParts(w: Word)
    ensures w / 0x100 < 0x100_0000 && w / 0x1_0000 < 0x1_0000 && w / 0x100_0000 < 0x100
  {
  }

  /** storage_data_in: the store data merged into the word last read. */
  function MergeIn(funct3: nat, byteAddr: Word, stored: Word, wd: Word): Word
  {
    HighParts(stored);
    if funct3 % 4 == BYTE_SIZE then
      var b := wd % 0x100;
      var lane := byteAddr % 4;
      if lane == 0 then stored / 0x100 * 0x100 + b
      else if lane == 1 then stored / 0x1_0000 * 0x1_0000 + b * 0x100 + stored % 0x100
      else if lane == 2 then stored / 0x100_0000 * 0x100_0000 + b * 0x1_0000 + stored % 0x1_0000
      else b * 0x100_0000 + stored % 0x100_0000
    else if funct3 % 4 == HALFWORD_SIZE then
      var h := wd % 0x1_0000;
      if byteAddr / 2 % 2 == 0 then stored / 0x1_0000 * 0x1_0000 + h
      else h * 0x1_0000 + stored % 0x1_0000
    else wd
  }
}
