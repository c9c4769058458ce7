/** The identifier grammars of sn/validate.ts. */
module Names {
  predicate NameChar(c: char) { 'a' <= c <= 'z' || '0' <= c <= '9' || c == '_' }

  predicate TableName(s: string) { 1 <= |s| <= 80 && forall i :: 0 <= i < |s| ==> NameChar(s[i]) }

  predicate FieldName(s: string) { 1 <= |s| <= 80 && forall i :: 0 <= i < |s| ==> NameChar(s[i]) || s[i] == '.' }
}
