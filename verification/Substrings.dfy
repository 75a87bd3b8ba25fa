/** One text inside another, and texts without the pipe both encodings reserve. */
module Substrings {

  predicate At(part: string, s: string, i: nat) {
    i + |part| <= |s| && s[i..i + |part|] == part
  }

  predicate PipeFree(s: string) {
    '|' !in s
  }
}
