/** Searching text: the std::string find family, and the character classes of the C locale. */
module Text {

  /** std::string::find_if from a position; the length of the text when there is none. */
  function Find(s: string, p: char -> bool, from: nat): (i: nat)
    requires from <= |s|
    ensures from <= i <= |s|
    decreases |s| - from
  {
    if from == |s| || p(s[from]) then from else Find(s, p, from + 1)
  }

  lemma {:induction false} FindFirst(s: string, p: char -> bool, from: nat)
    requires from <= |s|
    ensures Find(s, p, from) < |s| ==> p(s[Find(s, p, from)])
    ensures forall j :: from <= j < Find(s, p, from) ==> !p(s[j])
    decreases |s| - from
  {
    if from < |s| && !p(s[from]) { FindFirst(s, p, from + 1); }
  }

  lemma {:induction false} FindAt(s: string, p: char -> bool, from: nat, i: nat)
    requires from <= i < |s| && p(s[i])
    requires forall j :: from <= j < i ==> !p(s[j])
    ensures Find(s, p, from) == i
    decreases i - from
  {
    if from < i { FindAt(s, p, from + 1, i); }
  }

  lemma {:induction false} FindNone(s: string, p: char -> bool, from: nat)
    requires from <= |s|
    requires forall j :: from <= j < |s| ==> !p(s[j])
    ensures Find(s, p, from) == |s|
    decreases |s| - from
  {
    if from < |s| { FindNone(s, p, from + 1); }
  }

  /** isspace in the C locale. */
  predicate IsSpace(c: char) {
    c == ' ' || c == '\t' || c == '\n' || c == '\U{0B}' || c == '\U{0C}' || c == '\r'
  }
}
