/** The string operations the routes and schemas apply: JavaScript
    truthiness of a request field, `toLowerCase`, and `trim`. Case folding
    and white space are ASCII only. */
module Text {
  import opened Base

  /** `!value` is false: the field is present and not the empty string. */
  predicate Truthy(o: Option<string>) {
    o.Some? && |o.value| > 0
  }

  predicate IsSpace(c: char) {
    c == ' ' || c == '\t' || c == '\n' || c == '\r' || c == '\U{0B}' || c == '\U{0C}'
  }

  predicate IsUpper(c: char) {
    'A' <= c <= 'Z'
  }

  /** No upper-case letter: what the schema's `lowercase` setter guarantees. */
  predicate IsLower(s: string) {
    forall i | 0 <= i < |s| :: !IsUpper(s[i])
  }

  /** No white space at either end: what the schema's `trim` setter guarantees. */
  predicate IsTrimmed(s: string) {
    |s| == 0 || (!IsSpace(s[0]) && !IsSpace(s[|s| - 1]))
  }

  /** Nothing but white space (possibly nothing at all). */
  predicate IsBlank(s: string) {
    forall i | 0 <= i < |s| :: IsSpace(s[i])
  }

  function LowerChar(c: char): (r: char)
    ensures !IsUpper(r)
    ensures !IsUpper(c) ==> r == c
    ensures IsSpace(r) <==> IsSpace(c)
  {
    if IsUpper(c) then (c as int + 32) as char else c
  }

  /** `toLowerCase`, restricted to ASCII letters. */
  function Lower(s: string): (r: string)
    ensures |r| == |s|
    ensures IsLower(r)
    ensures forall i | 0 <= i < |s| :: !IsUpper(s[i]) ==> r[i] == s[i]
    ensures forall i | 0 <= i < |s| :: IsUpper(s[i]) ==> r[i] == (s[i] as int + 32) as char
    ensures forall i | 0 <= i < |s| :: IsSpace(r[i]) <==> IsSpace(s[i])
  {
    seq(|s|, i requires 0 <= i < |s| => LowerChar(s[i]))
  }

  /** Lower-casing a lower-case string changes nothing, so `Lower` is idempotent. */
  lemma LowerOfLower(s: string)
    requires IsLower(s)
    ensures Lower(s) == s
  {
  }

  function TrimStart(s: string): (r: string)
    ensures |r| <= |s| && r == s[|s| - |r|..]
    ensures |r| > 0 ==> !IsSpace(r[0])
    ensures forall i | 0 <= i < |s| - |r| :: IsSpace(s[i])
  {
    if |s| > 0 && IsSpace(s[0]) then TrimStart(s[1..]) else s
  }

  function TrimEnd(s: string): (r: string)
    ensures |r| <= |s| && r == s[..|r|]
    ensures |r| > 0 ==> !IsSpace(r[|r| - 1])
    ensures forall i | |r| <= i < |s| :: IsSpace(s[i])
  {
    if |s| > 0 && IsSpace(s[|s| - 1]) then TrimEnd(s[..|s| - 1]) else s
  }

  /** `trim`: drops the white space at both ends and keeps the rest. */
  function Trim(s: string): (r: string)
    ensures IsTrimmed(r)
    ensures |r| <= |s|
    ensures exists i :: TrimmedAt(s, r, i)
    ensures forall c | c in r :: c in s
    ensures |r| == 0 <==> IsBlank(s)
  {
    var t := TrimStart(s);
    TrimFacts(s, t, TrimEnd(t));
    TrimShape(s, t, TrimEnd(t));
    TrimEnd(t)
  }

  /** `r` is the slice of `s` starting at `i`, with only white space
      before and after it. */
  predicate TrimmedAt(s: string, r: string, i: int) {
    && 0 <= i <= |s| - |r|
    && r == s[i..i + |r|] && IsBlank(s[..i]) && IsBlank(s[i + |r|..])
  }

  /** The trimmed string is the slice of `s` between its leading and its
      trailing white space. */
  lemma TrimShape(s: string, t: string, r: string)
    requires t == TrimStart(s) && r == TrimEnd(t)
    ensures exists i :: TrimmedAt(s, r, i)
  {
    var k := |s| - |t|;
    SliceOfSlice(s, k, t, r);
    LeadIsBlank(s, t);
    TailIsBlank(s, t, r);
    assert TrimmedAt(s, r, k);
  }

  lemma SliceOfSlice(s: string, k: nat, t: string, r: string)
    requires k <= |s| && t == s[k..] && |r| <= |t| && r == t[..|r|]
    ensures k + |r| <= |s| && r == s[k..k + |r|]
  {
  }

  /** What `TrimStart` drops is white space. */
  lemma LeadIsBlank(s: string, t: string)
    requires t == TrimStart(s)
    ensures IsBlank(s[..|s| - |t|])
  {
    var k := |s| - |t|;
    var lead := s[..k];
    forall j | 0 <= j < |lead| ensures IsSpace(lead[j]) {
      assert lead[j] == s[j];
    }
  }

  /** What `TrimEnd` then drops is white space. */
  lemma TailIsBlank(s: string, t: string, r: string)
    requires t == TrimStart(s) && r == TrimEnd(t)
    ensures IsBlank(s[|s| - |t| + |r|..])
  {
    var k := |s| - |t|;
    assert t == s[k..];
    var tail := s[k + |r|..];
    forall j | 0 <= j < |tail| ensures IsSpace(tail[j]) {
      assert tail[j] == s[k + |r| + j] == t[|r| + j];
    }
  }

  lemma TrimFacts(s: string, t: string, r: string)
    requires t == TrimStart(s) && r == TrimEnd(t)
    ensures forall c | c in r :: c in s
    ensures |r| == 0 <==> IsBlank(s)
  {
    var k := |s| - |t|;
    assert t == s[k..];
    assert r == t[..|r|];
    forall c | c in r ensures c in s {
      var i :| 0 <= i < |r| && r[i] == c;
      assert t[i] == c;
      assert s[k + i] == c;
    }
    if |r| == 0 {
      BlankWhenBothEndsSpace(s, t, k);
    } else {
      assert t[0] == r[0];
      assert s[k] == r[0];
    }
  }

  lemma BlankWhenBothEndsSpace(s: string, t: string, k: nat)
    requires k <= |s| && t == s[k..]
    requires forall i | 0 <= i < k :: IsSpace(s[i])
    requires IsBlank(t)
    ensures IsBlank(s)
  {
    forall i | 0 <= i < |s| ensures IsSpace(s[i]) {
      if i >= k {
        assert t[i - k] == s[i];
      }
    }
  }

  /** Trimming a trimmed string changes nothing, so `Trim` is idempotent. */
  lemma TrimOfTrimmed(s: string)
    requires IsTrimmed(s)
    ensures Trim(s) == s
  {
  }

  /** A trimmed, lower-cased string is a fixed point of both setters. */
  lemma TrimLowerIsCanonical(s: string)
    ensures IsLower(Trim(Lower(s))) && IsTrimmed(Trim(Lower(s)))
    ensures Lower(Trim(Lower(s))) == Trim(Lower(s))
    ensures Trim(Trim(Lower(s))) == Trim(Lower(s))
  {
    var t := Trim(Lower(s));
    forall i | 0 <= i < |t| ensures !IsUpper(t[i]) {
      assert t[i] in Lower(s);
    }
    LowerOfLower(t);
    TrimOfTrimmed(t);
  }
}
