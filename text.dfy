/** The string operations the pipeline applies to file and column names:
    `str.lower()`, `str.replace('_', ' ')` and `str.title()`, over ASCII
    letters (every other character is uncased and left alone). */
module Text {

  predicate IsUpper(c: char) { 'A' <= c <= 'Z' }

  predicate IsLower(c: char) { 'a' <= c <= 'z' }

  predicate IsCased(c: char) { IsUpper(c) || IsLower(c) }

  function ToLower(c: char): (d: char)
    ensures IsCased(d) == IsCased(c) && !IsUpper(d)
    ensures !IsCased(c) ==> d == c
  {
    if IsUpper(c) then (c as int + 32) as char else c
  }

  function ToUpper(c: char): (d: char)
    ensures IsCased(d) == IsCased(c) && !IsLower(d)
    ensures !IsCased(c) ==> d == c
    ensures ToLower(d) == ToLower(c)
  {
    if IsLower(c) then (c as int - 32) as char else c
  }

  /** Two letters with the same lower-case form and the same case are equal. */
  lemma SameLetter(a: char, b: char)
    requires ToLower(a) == ToLower(b) && IsUpper(a) == IsUpper(b)
    ensures a == b
  {
  }

  /** `str.lower()`. */
  function Lower(s: string): (r: string)
    ensures |r| == |s| && forall i :: 0 <= i < |s| ==> r[i] == ToLower(s[i])
  {
    seq(|s|, i requires 0 <= i < |s| => ToLower(s[i]))
  }

  /** `str.replace(from, to)` for single characters. */
  function ReplaceChar(s: string, from: char, to: char): (r: string)
    ensures |r| == |s|
    ensures forall i :: 0 <= i < |s| ==> r[i] == (if s[i] == from then to else s[i])
  {
    if s == [] then []
    else [if s[0] == from then to else s[0]] + ReplaceChar(s[1..], from, to)
  }

  /** The loop inside `str.title()`: a cased character becomes upper case
      when the character before it is uncased, lower case otherwise. */
  function TitleFrom(s: string, previousIsCased: bool): (r: string)
    ensures |r| == |s|
    ensures forall i :: 0 <= i < |s| ==>
      && IsCased(r[i]) == IsCased(s[i])
      && ToLower(r[i]) == ToLower(s[i])
      && (!IsCased(s[i]) ==> r[i] == s[i])
      && (IsCased(s[i]) ==> (IsUpper(r[i]) <==> !(if i == 0 then previousIsCased else IsCased(s[i - 1]))))
  {
    if s == [] then []
    else
      var c := s[0];
      var d := if !IsCased(c) then c else if previousIsCased then ToLower(c) else ToUpper(c);
      var rest := TitleFrom(s[1..], IsCased(c));
      assert forall i :: 1 <= i < |s| ==> s[i] == s[1..][i - 1] && ([d] + rest)[i] == rest[i - 1];
      [d] + rest
  }

  /** `str.title()`. */
  function TitleCase(s: string): (r: string)
    ensures |r| == |s|
    ensures forall i :: 0 <= i < |s| ==>
      && IsCased(r[i]) == IsCased(s[i])
      && ToLower(r[i]) == ToLower(s[i])
      && (!IsCased(s[i]) ==> r[i] == s[i])
      && (IsCased(s[i]) ==> (IsUpper(r[i]) <==> (i == 0 || !IsCased(s[i - 1]))))
  {
    TitleFrom(s, false)
  }

  /** Title-casing twice is title-casing once. */
  lemma TitleCaseIdempotent(s: string)
    ensures TitleCase(TitleCase(s)) == TitleCase(s)
  {
    var r := TitleCase(s);
    var r2 := TitleCase(r);
    forall i | 0 <= i < |s|
      ensures r2[i] == r[i]
    {
      if IsCased(r[i]) {
        if i > 0 {
          assert IsCased(r[i - 1]) == IsCased(s[i - 1]);
        }
        SameLetter(r2[i], r[i]);
      }
    }
  }

  /** Replacing a character that does not occur changes nothing. */
  lemma ReplaceAbsent(s: string, from: char, to: char)
    requires from !in s
    ensures ReplaceChar(s, from, to) == s
  {
    var r := ReplaceChar(s, from, to);
    forall i | 0 <= i < |s| ensures r[i] == s[i] {
      assert s[i] in s;
    }
  }
}
