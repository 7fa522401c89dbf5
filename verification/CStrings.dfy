/** Characters of C strings. */
module CStrings {

  predicate NulFree(s: string) {
    forall c :: c in s ==> c != '\0'
  }

  /** What strncpy keeps of a C string. */
  function CStr(s: string): string {
    if s == "" || s[0] == '\0' then "" else [s[0]] + CStr(s[1..])
  }
}
