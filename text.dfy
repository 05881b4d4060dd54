/** The two string operations the search view uses: String.prototype.toLowerCase
    (restricted to the ASCII letters) and String.prototype.startsWith. */
module Text {

  predicate IsAsciiUpper(c: char) {
    'A' <= c <= 'Z'
  }

  /** Lower-cases one character: ASCII capitals map to their small letters,
      every other character is left alone. */
  function LowerChar(c: char): (d: char)
    ensures !IsAsciiUpper(d)
    ensures IsAsciiUpper(c) ==> d as int - c as int == 'a' as int - 'A' as int
    ensures !IsAsciiUpper(c) ==> d == c
  {
    if IsAsciiUpper(c) then (c as int - 'A' as int + 'a' as int) as char else c
  }

  /** `s.toLowerCase()`: same length, no capital letter left, every other
      character kept in place. */
  function ToLowerCase(s: string): (r: string)
    ensures |r| == |s|
    ensures forall i :: 0 <= i < |r| ==> !IsAsciiUpper(r[i])
    ensures forall i :: 0 <= i < |s| && !IsAsciiUpper(s[i]) ==> r[i] == s[i]
    ensures forall i :: 0 <= i < |s| && IsAsciiUpper(s[i]) ==>
              r[i] as int == s[i] as int + ('a' as int - 'A' as int)
  {
    seq(|s|, i requires 0 <= i < |s| => LowerChar(s[i]))
  }

  /** Lower-casing twice is lower-casing once. */
  lemma ToLowerCaseIdempotent(s: string)
    ensures ToLowerCase(ToLowerCase(s)) == ToLowerCase(s)
  {
    var once := ToLowerCase(s);
    assert forall i :: 0 <= i < |once| ==> ToLowerCase(once)[i] == once[i];
  }

  /** `s.startsWith(prefix)`: the first |prefix| characters of `s` are `prefix`. */
  predicate StartsWith(s: string, prefix: string) {
    |prefix| <= |s| && s[..|prefix|] == prefix
  }

  /** `title.toLowerCase().startsWith(query.toLowerCase())`: the
      case-insensitive prefix test of the search view. */
  predicate MatchesIgnoringCase(title: string, query: string) {
    StartsWith(ToLowerCase(title), ToLowerCase(query))
  }

  /** The case of the query does not matter: searching for `q` and for its
      lower-cased form select the same titles. */
  lemma QueryCaseIrrelevant(title: string, query: string)
    ensures MatchesIgnoringCase(title, query) <==> MatchesIgnoringCase(title, ToLowerCase(query))
  {
    ToLowerCaseIdempotent(query);
  }

  /** The case of the title does not matter either. */
  lemma TitleCaseIrrelevant(title: string, query: string)
    ensures MatchesIgnoringCase(title, query) <==> MatchesIgnoringCase(ToLowerCase(title), query)
  {
    ToLowerCaseIdempotent(title);
  }
}
