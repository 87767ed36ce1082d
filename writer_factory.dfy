/**
 * GraphWriterFactory: the writer named on the command line, looked up after lower-casing
 * in a table of the two formats. The reflective instantiation is replaced by a kind.
 */
module WriterFactory {
  import opened Wrappers
  import opened JavaString
  import Insa2016
  import Insa2018

  datatype WriterKind = Insa2016Writer | Insa2018Writer

  /** What a lookup of an unknown name (or of a null name) ends in. */
  datatype LookupError = NullPointer

  const DEFAULT_WRITER: string := "insa2018"

  /** ALLOWED_WRITERS. */
  function AllowedWriters(): map<string, WriterKind> {
    map["insa2016" := Insa2016Writer, "insa2018" := Insa2018Writer]
  }

  /** The table key of each kind. */
  function Name(kind: WriterKind): string {
    match kind
    case Insa2016Writer => "insa2016"
    case Insa2018Writer => "insa2018"
  }

  /**
   * graphWriterFromName: `name.toLowerCase()` looked up in the table. A null name fails in
   * `toLowerCase`, an unknown one in `newInstance` on the null that `getOrDefault` returns.
   */
  function GraphWriterFromName(name: Option<string>): (r: Result<WriterKind, LookupError>)
    ensures r.Ok? <==> name.Some? && ToLower(name.value) in AllowedWriters()
    ensures r.Err? ==> r.error == NullPointer
  {
    if name.None? then Err(NullPointer)
    else
      var key := ToLower(name.value);
      if key in AllowedWriters() then Ok(AllowedWriters()[key]) else Err(NullPointer)
  }

  /** The table holds exactly the two kinds, each under its own name. */
  lemma AllowedWritersNames(kind: WriterKind)
    ensures Name(kind) in AllowedWriters() && AllowedWriters()[Name(kind)] == kind
    ensures forall key :: key in AllowedWriters() ==> key == Name(AllowedWriters()[key])
  {
  }

  /** A lower-case name is its own lower case. */
  lemma {:induction false} ToLowerOfLower(s: string)
    requires forall i :: 0 <= i < |s| ==> !IsUpper(s[i])
    ensures ToLower(s) == s
  {
    var r := ToLower(s);
    ToLowerChars(s);
    assert forall i :: 0 <= i < |s| ==> r[i] == s[i];
  }

  /** The names in the table are lower case. */
  lemma NameIsLowerCase(kind: WriterKind)
    ensures ToLower(Name(kind)) == Name(kind)
  {
    ToLowerOfLower(Name(kind));
  }

  /** Any casing of a writer's name selects that writer. */
  lemma AnyCasingSelects(name: string, kind: WriterKind)
    ensures EqualsIgnoringCase(name, Name(kind)) ==> GraphWriterFromName(Some(name)) == Ok(kind)
  {
    NameIsLowerCase(kind);
    AllowedWritersNames(kind);
  }

  /** A name that is no writer's name in any casing fails. */
  lemma UnknownNameFails(name: string)
    ensures (forall k: WriterKind :: !EqualsIgnoringCase(name, Name(k))) ==> GraphWriterFromName(Some(name)) == Err(NullPointer)
  {
    if ToLower(name) in AllowedWriters() {
      var k := AllowedWriters()[ToLower(name)];
      AllowedWritersNames(k);
      NameIsLowerCase(k);
      assert EqualsIgnoringCase(name, Name(k));
    }
  }

  /** The default name selects the 2018 format. */
  lemma DefaultWriterIs2018()
    ensures GraphWriterFromName(Some(DEFAULT_WRITER)) == Ok(Insa2018Writer)
  {
    NameIsLowerCase(Insa2018Writer);
  }

  /** getDefaultExtension of each writer. */
  function DefaultExtension(kind: WriterKind): (ext: string)
    ensures '.' !in ext && ext != ""
  {
    match kind
    case Insa2016Writer => Insa2016.DEFAULT_EXTENSION
    case Insa2018Writer => Insa2018.DEFAULT_EXTENSION
  }

  /** The two formats are told apart by their extensions. */
  lemma ExtensionsDistinct()
    ensures DefaultExtension(Insa2016Writer) != DefaultExtension(Insa2018Writer)
  {
  }
}
