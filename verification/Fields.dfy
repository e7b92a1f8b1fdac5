/** Texts made of fields and the separators behind them. */
module Fields {

  /** A field of a format string, the separator printed after it, and the text that follows. */
  function Field(field: string, separator: char, rest: string): string {
    field + [separator] + rest
  }

  function IndexOf(s: string, c: char): nat {
    if s == [] || s[0] == c then 0 else 1 + IndexOf(s[1..], c)
  }

  lemma {:induction false} SeparatorIndex(field: string, separator: char, rest: string)
    requires separator !in field
    ensures IndexOf(Field(field, separator, rest), separator) == |field|
  {
    if field != [] {
      assert Field(field, separator, rest)[1..] == Field(field[1..], separator, rest);
      SeparatorIndex(field[1..], separator, rest);
    }
  }

  /** A field that ends at the first separator can be read back. */
  lemma {:induction false} FieldIsInjective(a: string, b: string, separator: char, x: string, y: string)
    requires separator !in a && separator !in b && Field(a, separator, x) == Field(b, separator, y)
    ensures a == b && x == y
  {
    SeparatorIndex(a, separator, x);
    SeparatorIndex(b, separator, y);
    var s := Field(a, separator, x);
    assert a == s[..|a|] == b;
    assert x == s[|a| + 1..] == y;
  }
}
