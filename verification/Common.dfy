/** What several components share. */
module Common {
  datatype Option<+T> = None | Some(value: T)

  // Case folding in the C locale: strcasecmp calls two strings equal when their Lower is equal.

  function LowerChar(c: char): char {
    if 'A' <= c <= 'Z' then (c as int - 'A' as int + 'a' as int) as char else c
  }

  function Lower(s: string): (r: string)
    ensures |r| == |s|
  {
    if s == [] then [] else [LowerChar(s[0])] + Lower(s[1..])
  }
}
