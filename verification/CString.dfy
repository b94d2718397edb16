/** C strings of the format and path parsers: characters without NUL, and what a pointer into them sees. */
module CString {
  /** No NUL inside. */
  predicate IsCString(s: seq<char>) {
    forall i :: 0 <= i < |s| ==> s[i] != '\0'
  }

  /** The character at `i`, the terminating NUL at the end. */
  function At(s: seq<char>, i: nat): char {
    if i < |s| then s[i] else '\0'
  }
}
