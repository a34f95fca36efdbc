/** Small shared vocabulary: optional values and the byte order of strings. */
module Common {

  datatype Option<+T> = None | Some(value: T)

  /** Rust's `&str` order. Comparing UTF-8 bytes and comparing code points agree,
      so strings are compared code point by code point. */
  predicate Less(a: string, b: string) {
    b != "" && (a == "" || a[0] < b[0] || (a[0] == b[0] && Less(a[1..], b[1..])))
  }

  lemma LessIsStrict(a: string, b: string)
    ensures Less(a, b) ==> !Less(b, a)
    ensures a == b ==> !Less(a, b)
  {
    if a != "" && b != "" {
      LessIsStrict(a[1..], b[1..]);
    }
  }

  lemma LessIsTransitive(a: string, b: string, c: string)
    requires Less(a, b) && Less(b, c)
    ensures Less(a, c)
  {
    if a != "" && a[0] == b[0] && b[0] == c[0] {
      LessIsTransitive(a[1..], b[1..], c[1..]);
    }
  }

  lemma LessIsTotal(a: string, b: string)
    ensures a == b || Less(a, b) || Less(b, a)
  {
    if a != "" && b != "" && a[0] == b[0] {
      LessIsTotal(a[1..], b[1..]);
      assert a == [a[0]] + a[1..] && b == [b[0]] + b[1..];
    }
  }
}
