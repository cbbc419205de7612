/** `ReceiptPrinterService.PrintReceiptAsync`: the byte stream sent to the
    thermal printer. The receipt text has its Polish letters replaced by
    their base letters, is encoded as ASCII, and is preceded by the ESC/POS
    command `ESC t 0` that selects code page 0. The ASCII encoder (with its
    fallback for characters it cannot encode) is a parameter, and the spooler
    call is outside this model. */
module ReceiptPrinter {
  import opened CharTable

  newtype byte = x: int | 0 <= x < 0x100

  /** `ESC t 0`: select character code table 0 (PC437). */
  const SetCharsetCommand: seq<byte> := [0x1B, 0x74, 0x00]

  /** The replacements, in the order of the `Replace` chain. */
  const PolishTable: Table := [
    ('\U{0105}', 'a'), ('\U{0107}', 'c'), ('\U{0119}', 'e'), ('\U{0142}', 'l'),
    ('\U{0144}', 'n'), ('\U{00F3}', 'o'), ('\U{015B}', 's'), ('\U{017A}', 'z'),
    ('\U{017C}', 'z'), ('\U{0104}', 'A'), ('\U{0106}', 'C'), ('\U{0118}', 'E'),
    ('\U{0141}', 'L'), ('\U{0143}', 'N'), ('\U{00D3}', 'O'), ('\U{015A}', 'S'),
    ('\U{0179}', 'Z'), ('\U{017B}', 'Z')
  ]

  /** `ReplacePolishCharsWithAscii`: the chain of ordinal `Replace` calls. */
  function ReplacePolishCharsWithAscii(input: string): (r: string)
    ensures |r| == |input|
  {
    ReplaceChain(input, PolishTable)
  }

  lemma PolishTableShape()
    ensures forall i :: 0 <= i < |PolishTable| ==> PolishTable[i].0 as int >= 0x80
    ensures forall i :: 0 <= i < |PolishTable| ==> PolishTable[i].1 as int < 0x80
  {
  }

  lemma PolishImagesAreNotKeys()
    ensures ImagesAreNotKeys(PolishTable)
  {
    PolishTableShape();
  }

  lemma PolishKeysDistinct()
    ensures DistinctKeys(PolishTable)
  {
    var keys := seq(|PolishTable|, i requires 0 <= i < |PolishTable| => PolishTable[i].0 as int);
    assert keys == [0x105, 0x107, 0x119, 0x142, 0x144, 0xF3, 0x15B, 0x17A, 0x17C,
                    0x104, 0x106, 0x118, 0x141, 0x143, 0xD3, 0x15A, 0x179, 0x17B];
  }

  /** The chain replaces each character on its own: a Polish letter by its
      base letter and anything else by itself. */
  lemma ReplacePolishIsCharacterMap(input: string)
    ensures ReplacePolishCharsWithAscii(input) == MapString(PolishTable, input)
  {
    PolishImagesAreNotKeys();
    ReplaceChainIsMapString(input, PolishTable);
  }

  /** Each of the eighteen Polish letters becomes its base letter. */
  lemma ReplacePolishOfLetter(input: string, k: int, i: int)
    requires 0 <= i < |input| && 0 <= k < |PolishTable| && input[i] == PolishTable[k].0
    ensures ReplacePolishCharsWithAscii(input)[i] == PolishTable[k].1
  {
    ReplacePolishIsCharacterMap(input);
    PolishKeysDistinct();
    LookupOfEntry(PolishTable, k);
  }

  /** Replacing twice is replacing once. */
  lemma ReplacePolishIdempotent(input: string)
    ensures ReplacePolishCharsWithAscii(ReplacePolishCharsWithAscii(input)) == ReplacePolishCharsWithAscii(input)
  {
    ReplacePolishIsCharacterMap(input);
    ReplacePolishIsCharacterMap(ReplacePolishCharsWithAscii(input));
    PolishImagesAreNotKeys();
    MapStringIdempotent(PolishTable, input);
  }

  /** An ASCII character is left alone. */
  lemma ReplacePolishOfAscii(input: string, i: int)
    requires 0 <= i < |input| && input[i] as int < 0x80
    ensures ReplacePolishCharsWithAscii(input)[i] == input[i]
  {
    ReplacePolishIsCharacterMap(input);
    PolishTableShape();
    LookupBelowKeys(PolishTable, input[i], 0x80);
  }

  /** ASCII text is left alone. */
  lemma ReplacePolishKeepsAscii(input: string)
    requires forall i :: 0 <= i < |input| ==> input[i] as int < 0x80
    ensures ReplacePolishCharsWithAscii(input) == input
  {
    forall i | 0 <= i < |input|
      ensures ReplacePolishCharsWithAscii(input)[i] == input[i]
    {
      ReplacePolishOfAscii(input, i);
    }
  }

  /** No Polish letter survives the replacement. */
  lemma ReplacePolishLeavesNoPolishLetter(input: string, i: int, k: int)
    requires 0 <= i < |input| && 0 <= k < |PolishTable|
    ensures ReplacePolishCharsWithAscii(input)[i] != PolishTable[k].0
  {
    ReplacePolishIsCharacterMap(input);
    PolishImagesAreNotKeys();
    if IsKey(PolishTable, input[i]) {
      var j := LookupOfKey(PolishTable, input[i]);
    } else {
      LookupOfNonKey(PolishTable, input[i]);
    }
  }

  /** The bytes sent to the printer for `receiptText`: the code-page command,
      then the encoding of the text with its Polish letters replaced. */
  function PrintPayload(receiptText: string, encode: string -> seq<byte>): seq<byte>
  {
    SetCharsetCommand + encode(ReplacePolishCharsWithAscii(receiptText))
  }

  /** The payload starts with `ESC t 0` and goes on with exactly the encoding
      of the normalised text. */
  lemma PrintPayloadLayout(receiptText: string, encode: string -> seq<byte>)
    ensures var p := PrintPayload(receiptText, encode);
            && |p| == 3 + |encode(ReplacePolishCharsWithAscii(receiptText))|
            && p[..3] == [0x1B, 0x74, 0x00]
            && p[3..] == encode(ReplacePolishCharsWithAscii(receiptText))
  {
  }

  /** The name of the city of Lodz, written with its Polish letters, is
      handed to the encoder as "Lodz". */
  lemma ReplacePolishExample(text: string)
    requires |text| == 4
    requires text[0] == '\U{0141}' && text[1] == '\U{00F3}' && text[2] == 'd' && text[3] == '\U{017A}'
    ensures ReplacePolishCharsWithAscii(text) == "Lodz"
  {
    ReplacePolishOfLetter(text, 12, 0);
    ReplacePolishOfLetter(text, 5, 1);
    ReplacePolishOfAscii(text, 2);
    ReplacePolishOfLetter(text, 7, 3);
    SpellsLodz(ReplacePolishCharsWithAscii(text));
  }

  lemma SpellsLodz(n: string)
    requires |n| == 4 && n[0] == 'L' && n[1] == 'o' && n[2] == 'd' && n[3] == 'z'
    ensures n == "Lodz"
  {
  }
}
