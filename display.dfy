/**
 * The three pieces `updateDisplay` renders: the text already typed, the
 * character under the cursor, and the text still to come.
 */
module Display {
  import JsText

  datatype Parts = Parts(typed: string, current: string, remaining: string)

  /**
   * The split of `text` at the cursor `index`. Whatever the index (the
   * JavaScript operations clamp it), the three parts read back as `text`;
   * for a cursor inside the text the typed part is exactly what precedes it.
   */
  function Split(text: string, index: int): (p: Parts)
    ensures p.typed + p.current + p.remaining == text
    ensures 0 <= index <= |text| ==> p.typed == text[..index]
    ensures 0 <= index < |text| ==> p.current == [text[index]] && p.remaining == text[index + 1..]
    ensures |text| <= index ==> p.typed == text && p.current == [] && p.remaining == []
  {
    Parts(JsText.Substring(text, 0, index),
          JsText.CharAtOrEmpty(text, index),
          JsText.SubstringFrom(text, index + 1))
  }
}
