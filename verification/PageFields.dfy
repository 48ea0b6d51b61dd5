// Fields that every page shares: the status of a page and the cursor that continues it
// (internal/present/types.go, the end of internal/present/project.go).
module PageFields {
  import opened Utf8
  import opened TextOrder

  const TAB: Byte := 0x09
  const LF: Byte := 0x0A
  const CR: Byte := 0x0D

  // The bytes of an ASCII text.
  function Ascii(s: string): (t: Text)
    ensures |t| == |s| && forall k :: 0 <= k < |t| ==> t[k] < 0x80
  {
    seq(|s|, k requires 0 <= k < |s| => s[k] as int % 0x80)
  }

  // A word of the pages' vocabulary: no control byte can be in it.
  function Word(s: string): (t: Text)
    ensures |t| == |s| && forall k :: 0 <= k < |t| ==> 0x20 <= t[k] < 0x80
    ensures forall k :: 0 <= k < |t| && ' ' <= s[k] <= '~' ==> t[k] == s[k] as int
  {
    seq(|s|, k requires 0 <= k < |s| => if ' ' <= s[k] <= '~' then s[k] as int else 0x3F)
  }

  function StatusName(complete: bool): Text {
    if complete then Word("complete") else Word("partial")
  }

  const CURSOR_LENGTH := 22

  // A letter, a digit, "-" or "_".
  predicate CursorByte(b: Byte) {
    0x41 <= b <= 0x5A || 0x61 <= b <= 0x7A || 0x30 <= b <= 0x39 || b == 0x2D || b == 0x5F
  }

  predicate ValidCursor(cursor: Text) {
    |cursor| == CURSOR_LENGTH && forall k :: 0 <= k < |cursor| ==> CursorByte(cursor[k])
  }

  // A partial page names the cursor that continues it, a complete page has none.
  predicate ValidStatusCursor(complete: bool, cursor: Text) {
    if complete then cursor == [] else ValidCursor(cursor)
  }

  function CursorField(complete: bool, cursor: Text): Text {
    if complete then [] else Ascii("\tcursor=") + cursor
  }

  // Stands for the cursor of a partial page until there is one.
  const PLACEHOLDER: Text := Ascii("AAAAAAAAAAAAAAAAAAAAAA")

  lemma PlaceholderIsCursor()
    ensures ValidCursor(PLACEHOLDER)
  {
  }

  // ---- Paths ----

  const INPUT_STRING_MAX_BYTES := 4_096

  predicate ValidPath(path: Text) {
    path != [] && |path| <= INPUT_STRING_MAX_BYTES && Utf8.Valid(path)
  }
}
