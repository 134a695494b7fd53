// Memory images that hold a short program.
module Programs {
  import opened Types
  import opened Image
  import opened Isa
  import opened Decoder
  import ReadOverWrite

  const MAXIMAL_LENGTH := 6

  /** The address of a program's k-th word. */
  function WordAddress(k: nat): Address
    requires k < MAXIMAL_LENGTH
  {
    if k == 0 then 0 else if k == 1 then 4 else if k == 2 then 8 else if k == 3 then 12 else if k == 4 then 16 else 20
  }

  /** Memory with `words` from address 0 on and zeros behind them. */
  function Loaded(words: seq<Word>): Bytes
    requires |words| <= MAXIMAL_LENGTH
  {
    if words == [] then Repeat(MEMORY_SIZE, 0 as Byte)
    else
      var k := |words| - 1;
      match Write(Loaded(words[..k]), WordAddress(k), WORD, words[k])
      case None => Loaded(words[..k])
      case Some(bytes) => bytes
  }

  lemma AddressInBounds(k: nat)
    requires k < MAXIMAL_LENGTH
    ensures Position(WordAddress(k)) == 4 * k && InBounds(WordAddress(k), 4)
  {
  }

  lemma WordIsRaw(bytes: Bytes, address: Address)
    ensures RawRead(bytes, address, WORD) == ReadWord(bytes, address)
  {
    hide ReadWord;
  }

  /** Every word of the program is read back at its address. */
  lemma {:induction false} LoadedWord(words: seq<Word>, k: nat)
    requires k < |words| <= MAXIMAL_LENGTH
    ensures ReadWord(Loaded(words), WordAddress(k)) == Some(words[k])
  {
    hide Write, RawRead, ReadWord, Position, WordAddress;
    var last := |words| - 1;
    var before := Loaded(words[..last]);
    AddressInBounds(last);
    AddressInBounds(k);
    WordIsRaw(Loaded(words), WordAddress(k));
    if k == last {
      ReadOverWrite.ReadBack(before, WordAddress(k), WORD, words[k]);
    } else {
      LoadedWord(words[..last], k);
      ReadOverWrite.DisjointLoad(before, WordAddress(last), WORD, words[last], WordAddress(k), WORD);
      WordIsRaw(before, WordAddress(k));
    }
  }

  lemma FixedWords()
    ensures Decode(HALT_ENCODING) == NO_INSTRUCTION.(op := HALT) && Decode(0) == NO_INSTRUCTION
  {
  }
}
