/** The yes/no answer parser `StrToBool` of cmd/gha/main.go and the prompt
    validator built on it.

    Go's `strings.ToLower` is modelled on ASCII letters; `strings.TrimSpace`
    removes exactly the characters Go's `unicode.IsSpace` accepts; splitting
    with the empty separator yields one piece per character.

    The string functions carry no postconditions of their own: what they
    guarantee is proved in the lemmas after them, so that a caller of
    `StrToBool` does not pay for facts it does not use. */
module YesNo {
  import opened Wrappers

  /** The two errors `StrToBool` can return. */
  const EmptyString := Failure("empty string not allowed")
  const NotYesOrNo := Failure("answer must be yes or no")

  /** Go's `unicode.IsSpace`: the Latin-1 spaces and the other code points
      with the Unicode White_Space property. */
  predicate IsSpace(c: char) {
    c == '\t' || c == '\n' || c == '\U{000B}' || c == '\U{000C}' || c == '\r' || c == ' '
    || c == '\U{0085}' || c == '\U{00A0}' || c == '\U{1680}'
    || ('\U{2000}' <= c <= '\U{200A}')
    || c == '\U{2028}' || c == '\U{2029}' || c == '\U{202F}' || c == '\U{205F}' || c == '\U{3000}'
  }

  /** `unicode.ToLower` on ASCII: capitals map to small letters, everything
      else is left alone, and spaces stay spaces. */
  function LowerChar(c: char): (l: char)
    ensures 'A' <= c <= 'Z' ==> 'a' <= l <= 'z' && l as int - c as int == 32
    ensures !('A' <= c <= 'Z') ==> l == c
    ensures !('A' <= l <= 'Z')
    ensures IsSpace(l) == IsSpace(c)
  {
    if 'A' <= c <= 'Z' then (c as int + 32) as char else c
  }

  /** `strings.ToLower`. */
  function Lower(s: string): string {
    seq(|s|, i requires 0 <= i < |s| => LowerChar(s[i]))
  }

  /** Every character of `s` is already lower case. */
  predicate IsLowered(s: string) {
    forall i | 0 <= i < |s| :: LowerChar(s[i]) == s[i]
  }

  /** `i` is the position of the first character of `s` that is not a space. */
  predicate FirstNonSpaceAt(s: string, i: int) {
    0 <= i < |s| && !IsSpace(s[i]) && forall j | 0 <= j < i :: IsSpace(s[j])
  }

  /** Drops the leading spaces. */
  function TrimLeft(s: string): string {
    if |s| > 0 && IsSpace(s[0]) then TrimLeft(s[1..]) else s
  }

  /** Drops the trailing spaces. */
  function TrimRight(s: string): string {
    if |s| > 0 && IsSpace(s[|s| - 1]) then TrimRight(s[..|s| - 1]) else s
  }

  /** `strings.TrimSpace`. */
  function TrimSpace(s: string): string {
    TrimRight(TrimLeft(s))
  }

  /** `strings.Split(x, "")`: one piece per character, in order. */
  function Split(s: string): seq<string> {
    seq(|s|, i requires 0 <= i < |s| => [s[i]])
  }

  /** The normalisation `StrToBool` applies before looking at its input. */
  function Normalize(input: string): string {
    TrimSpace(Lower(input))
  }

  /** `StrToBool`: normalise, split into pieces, and look at the first piece
      only. What it means is stated by `StrToBoolAllSpace` and
      `StrToBoolFirstNonSpace`; its only errors are the two below. */
  function StrToBool(input: string): (r: Result<bool>)
    ensures r.Err? ==> r.error == EmptyString || r.error == NotYesOrNo
  {
    var pieces := Split(Normalize(input));
    if |pieces| == 0 then Err(EmptyString)
    else if pieces[0] != "y" && pieces[0] != "n" then Err(NotYesOrNo)
    else Ok(pieces[0] == "y")
  }

  /** The validator the prompt is configured with: it accepts exactly the
      answers `StrToBool` parses and reports `StrToBool`'s error otherwise. */
  function Validate(input: string): (e: Option<Failure>)
    ensures e == None <==> StrToBool(input).Ok?
    ensures e.Some? ==> StrToBool(input) == Err(e.value)
  {
    match StrToBool(input)
    case Ok(_) => None
    case Err(f) => Some(f)
  }

  /** `TrimLeft` removes a run of spaces from the front and stops at the
      first non-space. */
  lemma {:induction false} TrimLeftSpec(s: string)
    ensures |TrimLeft(s)| <= |s| && TrimLeft(s) == s[|s| - |TrimLeft(s)|..]
    ensures forall i | 0 <= i < |s| - |TrimLeft(s)| :: IsSpace(s[i])
    ensures TrimLeft(s) == [] || !IsSpace(TrimLeft(s)[0])
  {
    if |s| > 0 && IsSpace(s[0]) {
      var rest := s[1..];
      TrimLeftSpec(rest);
      assert s[|s| - |TrimLeft(s)|..] == rest[|rest| - |TrimLeft(rest)|..];
      forall i | 0 < i < |s| - |TrimLeft(s)| ensures IsSpace(s[i]) {
        assert s[i] == rest[i - 1];
      }
    }
  }

  /** `TrimRight` removes a run of spaces from the back and stops at the
      last non-space. */
  lemma {:induction false} TrimRightSpec(s: string)
    ensures |TrimRight(s)| <= |s| && TrimRight(s) == s[..|TrimRight(s)|]
    ensures forall i | |TrimRight(s)| <= i < |s| :: IsSpace(s[i])
    ensures TrimRight(s) == [] || !IsSpace(TrimRight(s)[|TrimRight(s)| - 1])
  {
    if |s| > 0 && IsSpace(s[|s| - 1]) {
      TrimRightSpec(s[..|s| - 1]);
    }
  }

  /** `TrimSpace(s)` is the slice `s[lo..hi]` with only spaces outside it and
      non-spaces at both of its ends; it is empty exactly when `s` is all
      spaces, and otherwise starts at the first non-space of `s`. */
  lemma TrimSpaceSpec(s: string) returns (lo: nat, hi: nat)
    ensures lo <= hi <= |s| && TrimSpace(s) == s[lo..hi]
    ensures forall i | 0 <= i < lo :: IsSpace(s[i])
    ensures forall i | hi <= i < |s| :: IsSpace(s[i])
    ensures lo < hi ==> !IsSpace(s[lo]) && !IsSpace(s[hi - 1])
    ensures TrimSpace(s) == [] <==> forall i | 0 <= i < |s| :: IsSpace(s[i])
    ensures forall i | FirstNonSpaceAt(s, i) :: lo == i < hi
  {
    TrimLeftSpec(s);
    var l := TrimLeft(s);
    TrimRightSpec(l);
    lo := |s| - |l|;
    hi := lo + |TrimRight(l)|;
    assert TrimSpace(s) == s[lo..hi];
    forall i | hi <= i < |s| ensures IsSpace(s[i]) {
      assert s[i] == l[i - lo];
    }
    if lo < hi {
      assert s[lo] == TrimSpace(s)[0];
      assert s[hi - 1] == TrimSpace(s)[hi - 1 - lo];
    } else {
      assert forall i | 0 <= i < |s| :: IsSpace(s[i]);
    }
    forall i | FirstNonSpaceAt(s, i) ensures lo == i < hi {
      assert !(lo < i) && !(i < lo);
    }
  }

  /** Lowering keeps the positions of the spaces. */
  lemma LowerKeepsSpaces(s: string)
    ensures |Lower(s)| == |s|
    ensures forall i | 0 <= i < |s| :: IsSpace(Lower(s)[i]) == IsSpace(s[i])
    ensures forall i | FirstNonSpaceAt(s, i) :: FirstNonSpaceAt(Lower(s), i)
  {
  }

  /** Lowercasing and dropping leading spaces commute. */
  lemma {:induction false} LowerTrimLeft(s: string)
    ensures Lower(TrimLeft(s)) == TrimLeft(Lower(s))
  {
    if |s| > 0 && IsSpace(s[0]) {
      assert IsSpace(Lower(s)[0]);
      assert Lower(s)[1..] == Lower(s[1..]);
      LowerTrimLeft(s[1..]);
    } else if |s| > 0 {
      assert !IsSpace(Lower(s)[0]);
    }
  }

  /** Lowercasing and dropping trailing spaces commute. */
  lemma {:induction false} LowerTrimRight(s: string)
    ensures Lower(TrimRight(s)) == TrimRight(Lower(s))
  {
    if |s| > 0 && IsSpace(s[|s| - 1]) {
      assert IsSpace(Lower(s)[|s| - 1]);
      assert Lower(s)[..|s| - 1] == Lower(s[..|s| - 1]);
      LowerTrimRight(s[..|s| - 1]);
    } else if |s| > 0 {
      assert !IsSpace(Lower(s)[|s| - 1]);
    }
  }

  /** Lowercasing before trimming, as `StrToBool` does, is trimming before
      lowercasing. */
  lemma {:induction false} LowerTrimSpace(s: string)
    ensures Lower(TrimSpace(s)) == TrimSpace(Lower(s))
  {
    LowerTrimLeft(s);
    LowerTrimRight(TrimLeft(s));
  }

  /** An answer made only of spaces, or no answer at all, is refused as
      empty, and only such an answer is. */
  lemma StrToBoolAllSpace(input: string)
    ensures StrToBool(input) == Err(EmptyString) <==> forall i | 0 <= i < |input| :: IsSpace(input[i])
  {
    LowerKeepsSpaces(input);
    var _, _ := TrimSpaceSpec(Lower(input));
    if forall i | 0 <= i < |input| :: IsSpace(input[i]) {
      assert forall i | 0 <= i < |input| :: IsSpace(Lower(input)[i]);
    }
  }

  /** Otherwise the first non-space character decides, ignoring case: `y`
      gives true, `n` gives false, anything else is refused. */
  lemma StrToBoolFirstNonSpace(input: string, i: int)
    requires FirstNonSpaceAt(input, i)
    ensures StrToBool(input) ==
      if LowerChar(input[i]) == 'y' then Ok(true)
      else if LowerChar(input[i]) == 'n' then Ok(false)
      else Err(NotYesOrNo)
  {
    LowerKeepsSpaces(input);
    var lo, hi := TrimSpaceSpec(Lower(input));
    assert Normalize(input)[0] == Lower(input)[i];
    assert Split(Normalize(input))[0] == [LowerChar(input[i])];
  }

  lemma LowerIsLowered(s: string)
    ensures IsLowered(Lower(s))
  {
  }

  lemma {:induction false} LowerOfLowered(s: string)
    requires IsLowered(s)
    ensures Lower(s) == s
  {
    assert forall i | 0 <= i < |s| :: Lower(s)[i] == s[i];
  }

  /** Trimming twice is trimming once. */
  lemma {:induction false} TrimSpaceIdempotent(s: string)
    ensures TrimSpace(TrimSpace(s)) == TrimSpace(s)
  {
    var lo, hi := TrimSpaceSpec(s);
    var r := TrimSpace(s);
    if r != [] {
      assert r[0] == s[lo] && r[|r| - 1] == s[hi - 1];
    }
    assert TrimLeft(r) == r;
    assert TrimRight(r) == r;
  }

  /** Normalising twice is normalising once. */
  lemma {:induction false} NormalizeIdempotent(s: string)
    ensures Normalize(Normalize(s)) == Normalize(s)
  {
    var n := Normalize(s);
    LowerIsLowered(s);
    var lo, hi := TrimSpaceSpec(Lower(s));
    assert forall k | 0 <= k < |n| :: n[k] == Lower(s)[lo + k];
    LowerOfLowered(n);
    TrimSpaceIdempotent(Lower(s));
  }

  /** `StrToBool` ignores case and surrounding white space: an answer and its
      normalised form parse alike. */
  lemma {:induction false} CaseAndSpaceInsensitive(s: string)
    ensures StrToBool(Normalize(s)) == StrToBool(s)
  {
    NormalizeIdempotent(s);
  }

  /** Only the first non-space character counts: two answers that start with
      the same letter, up to case, parse alike (`"yes"` and `"Yikes"`). */
  lemma OnlyFirstCharacterMatters(a: string, i: int, b: string, j: int)
    requires FirstNonSpaceAt(a, i) && FirstNonSpaceAt(b, j)
    requires LowerChar(a[i]) == LowerChar(b[j])
    ensures StrToBool(a) == StrToBool(b)
  {
    StrToBoolFirstNonSpace(a, i);
    StrToBoolFirstNonSpace(b, j);
  }

  /** A capital Y is a yes; "yes" and "yikes" are both yes. */
  lemma ExampleYes()
    ensures StrToBool("Y") == Ok(true)
    ensures StrToBool("yes") == StrToBool("yikes") == Ok(true)
  {
    StrToBoolFirstNonSpace("Y", 0);
    StrToBoolFirstNonSpace("yes", 0);
    StrToBoolFirstNonSpace("yikes", 0);
  }

  /** Leading spaces are skipped: "  no" is a no. */
  lemma ExampleIndentedNo()
    ensures StrToBool("  no") == Ok(false)
  {
    var s := "  no";
    assert s[0] == ' ' && s[1] == ' ' && s[2] == 'n';
    StrToBoolFirstNonSpace(s, 2);
  }

  /** Empty and all-space answers are refused as empty. */
  lemma ExampleEmpty()
    ensures StrToBool("") == Err(EmptyString)
    ensures StrToBool(" \t ") == Err(EmptyString)
  {
    StrToBoolAllSpace("");
    StrToBoolAllSpace(" \t ");
  }

  /** A word starting with neither y nor n is refused. */
  lemma ExampleMaybe()
    ensures StrToBool("maybe") == Err(NotYesOrNo)
  {
    StrToBoolFirstNonSpace("maybe", 0);
  }
}
