/**
 * The two JavaScript string operations the typing widget relies on, with
 * their out-of-range behaviour spelled out: `String.prototype.substring`
 * clamps both ends into the string and swaps them when reversed, and
 * `s[i] || ''` yields the empty string for an index outside the string.
 * A JavaScript string is modelled as a sequence of `char`.
 */
module JsText {

  /** An index clamped into `[0, len]`, as `substring` does with its arguments. */
  function Clamp(i: int, len: nat): (r: nat)
    ensures r <= len
    ensures 0 <= i <= len ==> r == i
    ensures i < 0 ==> r == 0
    ensures len < i ==> r == len
  {
    if i < 0 then 0 else if len < i then len else i
  }

  /** `s.substring(start, end)`. */
  function Substring(s: string, start: int, end: int): (r: string)
    ensures 0 <= start <= end <= |s| ==> r == s[start..end]
    ensures 0 <= start <= |s| <= end ==> r == s[start..]
    ensures end <= 0 && start <= 0 ==> r == []
    ensures |s| <= start && |s| <= end ==> r == []
  {
    var a, b := Clamp(start, |s|), Clamp(end, |s|);
    if a <= b then s[a..b] else s[b..a]
  }

  /** `s.substring(start)`, which runs to the end of the string. */
  function SubstringFrom(s: string, start: int): (r: string)
    ensures 0 <= start <= |s| ==> r == s[start..]
    ensures start <= 0 ==> r == s
    ensures |s| <= start ==> r == []
  {
    Substring(s, start, |s|)
  }

  /** `s[i] || ''`: the one character at `i`, or empty when `i` is out of range. */
  function CharAtOrEmpty(s: string, i: int): (r: string)
    ensures |r| <= 1
    ensures 0 <= i < |s| ==> r == [s[i]]
    ensures !(0 <= i < |s|) ==> r == []
  {
    if 0 <= i < |s| then [s[i]] else []
  }
}
