/** The characters that names of sources and keys of the disk cache are made of. */
module Names {

  predicate NameChar(c: char) {
    'A' <= c <= 'Z' || 'a' <= c <= 'z' || '0' <= c <= '9' || c == '_' || c == '.' || c == '-'
  }

  // A name of a source or a network.
  predicate NameOk(name: string) {
    name != "" && forall i :: 0 <= i < |name| ==> NameChar(name[i])
  }

  lemma NameExamples()
    ensures NameOk("Main-St_2.v1") && NameOk("..") && NameOk("-")
    ensures !NameOk("") && !NameOk("a/b") && !NameOk("a b") && !NameOk("a:b")
  {
    assert !NameChar("a/b"[1]) && !NameChar("a b"[1]) && !NameChar("a:b"[1]);
  }
}
