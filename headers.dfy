/**
 * Header normalisation of the study-log sheet ("Controle da Semana"):
 * every column name is stripped of surrounding whitespace, then the alias
 * "Matéria Foco" is renamed to "Matéria" (app.py:26-27).
 */
module Headers {

  /** The name the rest of the dashboard uses for the subject column. */
  const SubjectHeader: string := "Mat\U{E9}ria"
  /** The alias the spreadsheet may carry for it. */
  const SubjectFocusHeader: string := "Mat\U{E9}ria Foco"

  /** Python's str.isspace, which str.strip() uses when given no argument. */
  predicate IsSpace(c: char) {
    c == ' ' || '\t' <= c <= '\r' || '\U{1C}' <= c <= '\U{1F}'
    || c == '\U{85}' || c == '\U{A0}' || c == '\U{1680}'
    || '\U{2000}' <= c <= '\U{200A}' || c == '\U{2028}' || c == '\U{2029}'
    || c == '\U{202F}' || c == '\U{205F}' || c == '\U{3000}'
  }

  /** Drops leading whitespace: the result is a suffix of s, everything cut is whitespace. */
  function TrimStart(s: string): (r: string)
    ensures |r| <= |s| && r == s[|s| - |r|..]
    ensures forall i :: 0 <= i < |s| - |r| ==> IsSpace(s[i])
    ensures r == [] || !IsSpace(r[0])
  {
    if |s| > 0 && IsSpace(s[0]) then TrimStart(s[1..]) else s
  }

  /** Drops trailing whitespace: the result is a prefix of s, everything cut is whitespace. */
  function TrimEnd(s: string): (r: string)
    ensures |r| <= |s| && r == s[..|r|]
    ensures forall i :: |r| <= i < |s| ==> IsSpace(s[i])
    ensures r == [] || !IsSpace(r[|r| - 1])
  {
    if |s| > 0 && IsSpace(s[|s| - 1]) then TrimEnd(s[..|s| - 1]) else s
  }

  /**
   * str.strip(): the result is a slice s[i..j] whose cut-off ends are all
   * whitespace and which itself neither starts nor ends with whitespace.
   */
  function Strip(s: string): (r: string)
    ensures r == [] || (!IsSpace(r[0]) && !IsSpace(r[|r| - 1]))
  {
    TrimEnd(TrimStart(s))
  }

  /** Strip(s) is a slice of s from which only whitespace was cut at both ends. */
  lemma StripIsSlice(s: string)
    ensures exists i, j :: 0 <= i <= j <= |s| && Strip(s) == s[i..j]
                           && (forall k :: 0 <= k < i ==> IsSpace(s[k]))
                           && (forall k :: j <= k < |s| ==> IsSpace(s[k]))
  {
    var t := TrimStart(s);
    var r := TrimEnd(t);
    var i := |s| - |t|;
    assert r == s[i..i + |r|];
  }

  /** The rename of app.py:27 on its own. */
  function Rename(h: string): (r: string)
    ensures r == SubjectHeader <==> h == SubjectHeader || h == SubjectFocusHeader
    ensures h != SubjectFocusHeader ==> r == h
  {
    if h == SubjectFocusHeader then SubjectHeader else h
  }

  /** One column name after app.py:26-27: strip first, then rename. */
  function NormalizeHeader(h: string): (r: string)
    ensures r == [] || (!IsSpace(r[0]) && !IsSpace(r[|r| - 1]))
  {
    Rename(Strip(h))
  }

  /** A string without surrounding whitespace is left alone by Strip. */
  lemma StripKeepsTrimmed(s: string)
    requires s == [] || (!IsSpace(s[0]) && !IsSpace(s[|s| - 1]))
    ensures Strip(s) == s
  {
  }

  /**
   * What normalisation does to a header: it becomes "Matéria" exactly when
   * its stripped form is "Matéria" or "Matéria Foco"; otherwise it is only
   * stripped.
   */
  lemma NormalizeHeaderCases(h: string)
    ensures NormalizeHeader(h) == SubjectHeader
            <==> Strip(h) == SubjectHeader || Strip(h) == SubjectFocusHeader
    ensures NormalizeHeader(h) != SubjectHeader ==> NormalizeHeader(h) == Strip(h)
  {
  }

  /** Normalising an already normalised header changes nothing. */
  lemma NormalizeHeaderIdempotent(h: string)
    ensures NormalizeHeader(NormalizeHeader(h)) == NormalizeHeader(h)
  {
    var r := NormalizeHeader(h);
    StripKeepsTrimmed(r);
  }

  /**
   * Stripping comes before renaming: " Matéria Foco " is renamed, which it
   * would not be if the rename were applied to the raw header first.
   */
  lemma StripBeforeRename()
    ensures NormalizeHeader(" Mat\U{E9}ria Foco ") == SubjectHeader
    ensures Strip(Rename(" Mat\U{E9}ria Foco ")) != SubjectHeader
  {
    var raw := " Mat\U{E9}ria Foco ";
    var mid := "Mat\U{E9}ria Foco";
    assert raw == [' '] + mid + [' '];
    assert !IsSpace(mid[0]) && !IsSpace(mid[|mid| - 1]);
    assert IsSpace(raw[0]) && (raw[1..] == mid + [' ']);
    assert TrimStart(raw) == TrimStart(mid + [' ']);
    assert TrimStart(mid + [' ']) == mid + [' '];
    assert (mid + [' '])[..|mid|] == mid;
    assert TrimEnd(mid + [' ']) == TrimEnd(mid);
    assert TrimEnd(mid) == mid;
    assert raw != SubjectFocusHeader by { assert |raw| != |SubjectFocusHeader|; }
    assert Rename(raw) == raw && mid != SubjectHeader;
  }

  /** app.py:26: every column name of the study-log DataFrame is stripped in place. */
  method StripColumns(columns: array<string>)
    modifies columns
    ensures forall i :: 0 <= i < columns.Length ==> columns[i] == Strip(old(columns[i]))
  {
    var i := 0;
    while i < columns.Length
      invariant 0 <= i <= columns.Length
      invariant forall k :: 0 <= k < i ==> columns[k] == Strip(old(columns[k]))
      invariant forall k :: i <= k < columns.Length ==> columns[k] == old(columns[k])
    {
      columns[i] := Strip(columns[i]);
      i := i + 1;
    }
  }

  /** app.py:27: every column named "Matéria Foco" is renamed "Matéria" in place. */
  method RenameColumns(columns: array<string>)
    modifies columns
    ensures forall i :: 0 <= i < columns.Length ==> columns[i] == Rename(old(columns[i]))
  {
    var i := 0;
    while i < columns.Length
      invariant 0 <= i <= columns.Length
      invariant forall k :: 0 <= k < i ==> columns[k] == Rename(old(columns[k]))
      invariant forall k :: i <= k < columns.Length ==> columns[k] == old(columns[k])
    {
      columns[i] := Rename(columns[i]);
      i := i + 1;
    }
  }

  /** app.py:26-27 together: each column name ends up as NormalizeHeader of the old one. */
  method NormalizeColumns(columns: array<string>)
    modifies columns
    ensures forall i :: 0 <= i < columns.Length ==> columns[i] == NormalizeHeader(old(columns[i]))
  {
    StripColumns(columns);
    RenameColumns(columns);
  }
}
