// Characters as code points: the white space table.

module Unicode {

  /** Unicode `White_Space`, which is what trimming text removes. */
  predicate White(c: int) {
    || 0x9 <= c <= 0xD || c == 0x20 || c == 0x85 || c == 0xA0 || c == 0x1680
    || 0x2000 <= c <= 0x200A || c == 0x2028 || c == 0x2029 || c == 0x202F || c == 0x205F || c == 0x3000
  }

  /** Blank text is empty once trimmed. */
  predicate Blank(text: string) {
    forall k :: 0 <= k < |text| ==> White(text[k] as int)
  }
}
