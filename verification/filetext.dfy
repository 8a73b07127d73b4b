/** `FileText`: a file name paired with its contents, with value equality and
    a "name:text" rendering. */
module FileTexts {
  import opened Base
  import opened Text

  datatype FileText = FileText(fileName: Option<string>, text: Option<string>)

  /** The dynamic type of the argument to `Equals(object)`: null, a `FileText`, or anything else. */
  datatype Obj = NullObj | FileTextObj(ft: FileText) | OtherObj

  /** `ft.Equals(obj)`: true exactly for another `FileText` with the same name and text (null equal to null). */
  function Equals(self: FileText, obj: Obj): (r: bool)
    ensures r <==> obj.FileTextObj? && obj.ft == self
  {
    match obj
    case FileTextObj(ft) => ft.fileName == self.fileName && ft.text == self.text
    case _ => false
  }

  /** `IEquatable<FileText>.Equals(other)`: delegates to `Equals(object)`; a null `other` is not equal. */
  function EquatableEquals(self: FileText, other: Option<FileText>): (r: bool)
    ensures r <==> other == Some(self)
  {
    Equals(self, if other.Some? then FileTextObj(other.value) else NullObj)
  }

  /** `ft.ToString()`: the name and a colon when the name is set, then the text (null as empty). */
  function ToString(self: FileText): (s: string)
    ensures self.fileName.None? ==> s == OrEmpty(self.text)
    ensures self.fileName.Some? ==> s == self.fileName.value + ":" + OrEmpty(self.text)
  {
    OrEmpty(self.fileName) + (if self.fileName.Some? then ":" else "") + OrEmpty(self.text)
  }

  /** Equality is reflexive and symmetric, and the two equality entry points agree. */
  lemma EqualsIsEquivalence(a: FileText, b: FileText)
    ensures Equals(a, FileTextObj(a))
    ensures Equals(a, FileTextObj(b)) == Equals(b, FileTextObj(a))
    ensures EquatableEquals(a, Some(b)) == Equals(a, FileTextObj(b))
    ensures !EquatableEquals(a, None) && !Equals(a, OtherObj)
  {
  }

  /** A named record's rendering splits back at its first colon when the name holds none. */
  lemma ToStringSplitsAtName(self: FileText)
    requires self.fileName.Some? && ':' !in self.fileName.value
    ensures ':' in ToString(self)
    ensures IndexOf(ToString(self), ':') == |self.fileName.value|
    ensures ToString(self)[|self.fileName.value| + 1..] == OrEmpty(self.text)
  {
    IndexOfAfterPrefix(self.fileName.value, ':', OrEmpty(self.text));
    assert ToString(self) == self.fileName.value + [':'] + OrEmpty(self.text);
  }
}
