/** The words a definition is written in, the spellings they may have, and what is assumed where they are left out. */
module DefinitionNotation {
  import opened Definition
  import opened DefinitionLoader
  import opened DefinitionRoundTrip
  import opened Options
  import opened PyNumbers
  import opened Values

  // ---- words ----

  const TYPE_WORDS := map["uint8" := UInt8, "uint16" := UInt16, "uint32" := UInt32, "uint64" := UInt64,
                          "int8" := Int8, "int16" := Int16, "int32" := Int32, "int64" := Int64,
                          "float32" := Float32, "float64" := Float64, "bytes" := Bytes, "string" := String,
                          "bitfield" := Bitfield, "array" := Array, "tlv_sequence" := TlvSequence,
                          "padding" := Padding]

  /** The loader knows exactly these types, and the printer writes each by its word. */
  lemma {:induction false} TypeWords(s: string)
    ensures TypeNamed(s) == if s in TYPE_WORDS then Some(TYPE_WORDS[s]) else None
    ensures forall t :: TypeName(t) in TYPE_WORDS && TYPE_WORDS[TypeName(t)] == t
  {
    TypeSpellings();
    if TypeNamed(s).Some? {
      NamedIsNamed(TYPES, s);
    } else if s in TYPE_WORDS {
      TypeNamesBack(TYPE_WORDS[s]);
    }
  }

  lemma TypeSpellings()
    ensures forall t :: TypeName(t) in TYPE_WORDS && TYPE_WORDS[TypeName(t)] == t
    ensures forall s :: s in TYPE_WORDS ==> TypeName(TYPE_WORDS[s]) == s
  {
  }

  lemma {:induction false} NamedIsNamed(types: seq<FieldType>, s: string)
    requires TypeIn(types, s).Some?
    ensures TypeName(TypeIn(types, s).value) == s
  {
    hide TypeName;
    if TypeName(types[0]) != s {
      NamedIsNamed(types[1..], s);
    }
  }

  const DISPLAY_WORDS := map["auto" := Auto, "hex" := Hex, "ascii" := Ascii, "unicode" := Unicode,
                             "decimal" := Decimal, "enum" := Enum]

  const KIND_WORDS := map["magic" := Magic, "sequence" := Sequence, "always" := Always]

  /** The names of the directions and their short forms. */
  const DIRECTION_WORDS := map["both" := Both, "client_to_server" := ClientToServer, "c2s" := ClientToServer,
                               "client" := ClientToServer, "server_to_client" := ServerToClient,
                               "s2c" := ServerToClient, "server" := ServerToClient]

  /** Displays, match rules and directions are known by exactly these words. */
  lemma {:induction false} OtherWords(s: string)
    ensures DisplayNamed(s) == if s in DISPLAY_WORDS then Some(DISPLAY_WORDS[s]) else None
    ensures KindNamed(s) == if s in KIND_WORDS then Some(KIND_WORDS[s]) else None
    ensures DirectionNamed(s) == if s in DIRECTION_WORDS then Some(DIRECTION_WORDS[s]) else None
  {
  }

  const SMALL := "abcdefghijklmnopqrstuvwxyz"
  const CAPITAL := "ABCDEFGHIJKLMNOPQRSTUVWXYZ"

  /** The same letter, perhaps as a capital. */
  ghost predicate SameLetter(written: char, c: char) {
    written == c || exists k :: 0 <= k < 26 && c == SMALL[k] && written == CAPITAL[k]
  }

  /** A word in any mixture of capitals. */
  ghost predicate Respelled(s: string, word: string) {
    |s| == |word| && forall k :: 0 <= k < |s| ==> SameLetter(s[k], word[k])
  }

  /** A word in any mixture of capitals, with hyphens for some of its underscores. */
  ghost predicate Hyphenated(s: string, word: string) {
    |s| == |word| && forall k :: 0 <= k < |s| ==> SameLetter(s[k], word[k]) || (s[k] == '-' && word[k] == '_')
  }

  ghost predicate NoCapitals(s: string) {
    forall k :: 0 <= k < |s| ==> !('A' <= s[k] <= 'Z')
  }

  /** Capitals never matter, and hyphens do not where the loader turns them into underscores. */
  lemma {:induction false} SpellingIsFree(s: string, word: string)
    ensures Lower(s) == word <==> Respelled(s, word) && NoCapitals(word)
    ensures Plain(word) ==> (Underscored(Lower(s)) == word <==> Hyphenated(s, word))
  {
    forall written, c
      ensures LowerChar(written) == c <==> SameLetter(written, c) && !('A' <= c <= 'Z')
      ensures SameLetter('-', c) <==> c == '-'
    {
      LetterLowered(written, c);
    }
    hide LowerChar, SameLetter;
    if Respelled(s, word) && NoCapitals(word) {
      assert Lower(s) == word;
    }
    if Plain(word) && Hyphenated(s, word) {
      assert Underscored(Lower(s)) == word;
    }
  }

  lemma {:induction false} LetterAt(k: nat)
    requires k < 26
    ensures SMALL[k] as int == 'a' as int + k && CAPITAL[k] as int == 'A' as int + k
  {
  }

  lemma {:induction false} LetterLowered(written: char, c: char)
    ensures LowerChar(written) == c <==> SameLetter(written, c) && !('A' <= c <= 'Z')
    ensures SameLetter('-', c) <==> c == '-'
  {
    forall k: nat | k < 26
      ensures SMALL[k] as int == 'a' as int + k && CAPITAL[k] as int == 'A' as int + k
    {
      LetterAt(k);
    }
    LettersCounted();
    hide SMALL, CAPITAL;
    if 'A' <= written <= 'Z' {
      var k := written as int - 'A' as int;
      assert CAPITAL[k] == written && SMALL[k] as int == written as int + 32;
    }
  }

  lemma LettersCounted()
    ensures |SMALL| == |CAPITAL| == 26
  {
  }
}
