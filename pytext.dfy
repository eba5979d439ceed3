/** Python string semantics the TOC core relies on: `str.strip()` with no
    argument, `str.lower()` and the substring test `m in s`. */
module PyText {

  /** `str.isspace()` for a single character: the characters that
      `str.strip()` with no argument removes. */
  predicate IsSpace(c: char) {
    || c == ' '
    || ('\t' <= c <= '\r')                  // \t \n \v \f \r
    || ('\U{1C}' <= c <= '\U{1F}')          // file, group, record, unit separators
    || c == '\U{85}' || c == '\U{A0}' || c == '\U{1680}'
    || ('\U{2000}' <= c <= '\U{200A}')
    || c == '\U{2028}' || c == '\U{2029}' || c == '\U{202F}' || c == '\U{205F}'
    || c == '\U{3000}'
  }

  /** `s.lstrip()` */
  function TrimStart(s: string): string {
    if s != [] && IsSpace(s[0]) then TrimStart(s[1..]) else s
  }

  /** `s.rstrip()` */
  function TrimEnd(s: string): string {
    if s != [] && IsSpace(s[|s| - 1]) then TrimEnd(s[..|s| - 1]) else s
  }

  /** `s.lstrip()` drops the leading whitespace and nothing else. */
  lemma {:induction false} TrimStartSpec(s: string)
    ensures |TrimStart(s)| <= |s| && TrimStart(s) == s[|s| - |TrimStart(s)|..]
    ensures TrimStart(s) == [] || !IsSpace(TrimStart(s)[0])
    ensures forall i :: 0 <= i < |s| - |TrimStart(s)| ==> IsSpace(s[i])
  {
    if s != [] && IsSpace(s[0]) {
      var r := s[1..];
      TrimStartSpec(r);
      assert TrimStart(s) == TrimStart(r);
      assert r[|r| - |TrimStart(r)|..] == s[|s| - |TrimStart(s)|..];
      forall i | 0 <= i < |s| - |TrimStart(s)| ensures IsSpace(s[i]) {
        if i > 0 {
          assert s[i] == r[i - 1];
        }
      }
    }
  }

  /** `s.rstrip()` drops the trailing whitespace and nothing else. */
  lemma {:induction false} TrimEndSpec(s: string)
    ensures |TrimEnd(s)| <= |s| && TrimEnd(s) == s[..|TrimEnd(s)|]
    ensures TrimEnd(s) == [] || !IsSpace(TrimEnd(s)[|TrimEnd(s)| - 1])
    ensures forall i :: |TrimEnd(s)| <= i < |s| ==> IsSpace(s[i])
  {
    if s != [] && IsSpace(s[|s| - 1]) {
      var r := s[..|s| - 1];
      TrimEndSpec(r);
      assert TrimEnd(s) == TrimEnd(r);
      assert r[..|TrimEnd(r)|] == s[..|TrimEnd(s)|];
      forall i | |TrimEnd(s)| <= i < |s| ensures IsSpace(s[i]) {
        if i < |r| {
          assert s[i] == r[i];
        }
      }
    }
  }

  /** `s.strip()` */
  function Strip(s: string): string {
    TrimEnd(TrimStart(s))
  }

  /** A string strips to nothing exactly when every character is whitespace. */
  lemma StripEmptyIff(s: string)
    ensures Strip(s) == [] <==> forall i :: 0 <= i < |s| ==> IsSpace(s[i])
  {
    TrimStartSpec(s);
    TrimEndSpec(TrimStart(s));
  }

  /** Leading whitespace never changes the stripped text. */
  lemma StripSpaceCons(c: char, s: string)
    requires IsSpace(c)
    ensures Strip([c] + s) == Strip(s)
  {
    assert ([c] + s)[1..] == s;
  }

  /** `c.lower()` restricted to ASCII letters; see README for why this is
      enough for the marker test. */
  function LowerChar(c: char): char {
    if 'A' <= c <= 'Z' then (c as int + 32) as char else c
  }

  /** `s.lower()` */
  function Lower(s: string): (r: string)
    ensures |r| == |s|
  {
    if s == [] then [] else [LowerChar(s[0])] + Lower(s[1..])
  }

  /** `s.lower()` lowers each character on its own. */
  lemma {:induction false} LowerAt(s: string, i: nat)
    requires i < |s|
    ensures Lower(s)[i] == LowerChar(s[i])
  {
    if i > 0 {
      LowerAt(s[1..], i - 1);
    }
  }

  /** `m` occurs in `s` starting at offset `i`. */
  predicate OccursAt(s: string, m: string, i: nat) {
    i + |m| <= |s| && s[i..i + |m|] == m
  }

  /** Python's `m in s`. */
  predicate Contains(s: string, m: string) {
    exists i: nat | i <= |s| :: OccursAt(s, m, i)
  }

  /** Substring containment is transitive: an occurrence of `m` inside an
      occurrence of `w` is an occurrence of `m` in `s`. */
  lemma ContainsTransitive(s: string, w: string, m: string)
    requires Contains(s, w) && Contains(w, m)
    ensures Contains(s, m)
  {
    var i: nat :| i <= |s| && OccursAt(s, w, i);
    var j: nat :| j <= |w| && OccursAt(w, m, j);
    forall k | 0 <= k < |m| ensures s[i + j + k] == m[k] {
      assert s[i..i + |w|][j + k] == w[j + k];
    }
    assert s[i + j..i + j + |m|] == m;
    assert OccursAt(s, m, i + j);
  }

  /** `s.lstrip()` keeps an occurrence that does not start with whitespace,
      shifted by what it dropped. */
  lemma TrimStartKeeps(s: string, m: string, i: nat)
    requires |m| > 0 && OccursAt(s, m, i) && !IsSpace(m[0])
    ensures |s| - |TrimStart(s)| <= i && OccursAt(TrimStart(s), m, i - (|s| - |TrimStart(s)|))
  {
    var u := TrimStart(s);
    TrimStartSpec(s);
    var d := |s| - |u|;
    assert u == s[d..];
    assert s[i] == s[i..i + |m|][0];
    assert u[i - d..i - d + |m|] == s[i..i + |m|];
  }

  /** `s.rstrip()` keeps an occurrence that does not end with whitespace. */
  lemma TrimEndKeeps(s: string, m: string, i: nat)
    requires |m| > 0 && OccursAt(s, m, i) && !IsSpace(m[|m| - 1])
    ensures OccursAt(TrimEnd(s), m, i)
  {
    var w := TrimEnd(s);
    TrimEndSpec(s);
    assert s[i + |m| - 1] == s[i..i + |m|][|m| - 1];
    assert w[i..i + |m|] == s[i..i + |m|];
  }

  /** Stripping only drops whitespace at the ends, so a run of characters
      none of which is whitespace that occurs in `s` occurs in `s.strip()`. */
  lemma StripKeepsInner(s: string, m: string)
    requires |m| > 0 && Contains(s, m)
    requires forall k :: 0 <= k < |m| ==> !IsSpace(m[k])
    ensures Contains(Strip(s), m)
  {
    var i: nat :| i <= |s| && OccursAt(s, m, i);
    TrimStartKeeps(s, m, i);
    var j := i - (|s| - |TrimStart(s)|);
    TrimEndKeeps(TrimStart(s), m, j);
  }

  /** `str.lower()` keeps an occurrence of a needle it does not change. */
  lemma LowerKeeps(s: string, m: string)
    requires Contains(s, m)
    requires forall k :: 0 <= k < |m| ==> LowerChar(m[k]) == m[k]
    ensures Contains(Lower(s), m)
  {
    var i: nat :| i <= |s| && OccursAt(s, m, i);
    forall k | 0 <= k < |m| ensures Lower(s)[i + k] == m[k] {
      LowerAt(s, i + k);
      assert s[i + k] == s[i..i + |m|][k];
    }
    assert Lower(s)[i..i + |m|] == m;
    assert OccursAt(Lower(s), m, i);
  }

  /** A non-empty needle only occurs in a non-empty string. */
  lemma ContainsNonEmpty(s: string, m: string)
    requires |m| > 0 && Contains(s, m)
    ensures |s| > 0
  {
  }
}
