/**
 Document-id sanitisation (main.py:63): the id value is turned into text and
 every character that is not alphanumeric is dropped.
 */
module Ids {
  import opened Values

  /** Alphanumeric characters, restricted to ASCII letters and digits. */
  predicate IsAlnum(c: char) {
    'a' <= c <= 'z' || 'A' <= c <= 'Z' || '0' <= c <= '9'
  }

  predicate AllAlnum(s: string) {
    forall i :: 0 <= i < |s| ==> IsAlnum(s[i])
  }

  /** Keeps the alphanumeric characters of `s`, in order. */
  function Sanitize(s: string): (r: string)
    ensures AllAlnum(r)
    ensures |r| <= |s|
    decreases |s|
  {
    if |s| == 0 then ""
    else (if IsAlnum(s[0]) then [s[0]] else "") + Sanitize(s[1..])
  }

  /** The document id derived from an id-field value. */
  function DocumentId(key: Value): (id: string)
    ensures AllAlnum(id)
  {
    Sanitize(ToString(key))
  }

  /** `t` can be obtained from `s` by deleting characters. */
  predicate IsSubsequence(t: string, s: string)
    decreases |s|
  {
    if |t| == 0 then true
    else if |s| == 0 then false
    else (t[0] == s[0] && IsSubsequence(t[1..], s[1..])) || IsSubsequence(t, s[1..])
  }

  /** How many characters of `s` are alphanumeric. */
  function AlnumCount(s: string): nat
    decreases |s|
  {
    if |s| == 0 then 0 else (if IsAlnum(s[0]) then 1 else 0) + AlnumCount(s[1..])
  }

  lemma {:induction false} SanitizeIsSubsequence(s: string)
    ensures IsSubsequence(Sanitize(s), s)
    decreases |s|
  {
    if |s| > 0 {
      SanitizeIsSubsequence(s[1..]);
      if IsAlnum(s[0]) {
        assert Sanitize(s) == [s[0]] + Sanitize(s[1..]);
        assert Sanitize(s)[1..] == Sanitize(s[1..]);
      } else {
        assert Sanitize(s) == Sanitize(s[1..]);
      }
    }
  }

  lemma {:induction false} SanitizeKeepsEveryAlnum(s: string)
    ensures |Sanitize(s)| == AlnumCount(s)
    decreases |s|
  {
    if |s| > 0 {
      SanitizeKeepsEveryAlnum(s[1..]);
    }
  }

  /** An alphanumeric subsequence of `s` has at most `AlnumCount(s)` characters. */
  lemma {:induction false} AlnumSubsequenceBound(t: string, s: string)
    requires IsSubsequence(t, s)
    requires AllAlnum(t)
    ensures |t| <= AlnumCount(s)
    decreases |s|
  {
    if |t| > 0 {
      if t[0] == s[0] && IsSubsequence(t[1..], s[1..]) {
        AlnumSubsequenceBound(t[1..], s[1..]);
      } else {
        AlnumSubsequenceBound(t, s[1..]);
      }
    }
  }

  /** The sanitised id is the ONLY alphanumeric subsequence of `s` that keeps
      every alphanumeric character: together with `SanitizeIsSubsequence` and
      `SanitizeKeepsEveryAlnum`, this characterises `Sanitize` as the in-order
      subsequence of the alphanumeric characters. */
  lemma {:induction false} SanitizeUnique(t: string, s: string)
    requires IsSubsequence(t, s)
    requires AllAlnum(t)
    requires |t| == AlnumCount(s)
    ensures t == Sanitize(s)
    decreases |s|
  {
    if |s| == 0 {
      assert |t| == 0;
    } else if !IsAlnum(s[0]) {
      if |t| == 0 {
        SanitizeKeepsEveryAlnum(s);
      } else {
        assert t[0] != s[0];
        SanitizeUnique(t, s[1..]);
      }
    } else {
      if IsSubsequence(t, s[1..]) {
        AlnumSubsequenceBound(t, s[1..]);
      }
      assert t[0] == s[0] && IsSubsequence(t[1..], s[1..]);
      SanitizeUnique(t[1..], s[1..]);
      assert t == [t[0]] + t[1..];
    }
  }

  /** Sanitising a concatenation sanitises each part. */
  lemma {:induction false} SanitizeConcat(a: string, b: string)
    ensures Sanitize(a + b) == Sanitize(a) + Sanitize(b)
    decreases |a|
  {
    if |a| == 0 {
      assert a + b == b;
    } else {
      assert (a + b)[0] == a[0];
      assert (a + b)[1..] == a[1..] + b;
      SanitizeConcat(a[1..], b);
    }
  }

  /** Sanitising leaves a string unchanged exactly when it is already alphanumeric. */
  lemma {:induction false} SanitizeFixesExactlyAlnum(s: string)
    ensures Sanitize(s) == s <==> AllAlnum(s)
    decreases |s|
  {
    if |s| > 0 && AllAlnum(s) {
      SanitizeFixesExactlyAlnum(s[1..]);
      assert s == [s[0]] + s[1..];
    }
  }

  /** Sanitising twice gives the same id as sanitising once. */
  lemma {:induction false} SanitizeIdempotent(s: string)
    ensures Sanitize(Sanitize(s)) == Sanitize(s)
  {
    SanitizeFixesExactlyAlnum(Sanitize(s));
  }

  /** An integer id becomes its decimal digits: the minus sign of a negative id
      is dropped, so `-n` and `n` name the same document. */
  lemma {:induction false} IntegerDocumentId(i: int)
    ensures DocumentId(Int(i)) == Decimal(if i < 0 then -i else i)
    ensures DocumentId(Int(-i)) == DocumentId(Int(i))
  {
    var n: nat := if i < 0 then -i else i;
    SanitizeFixesExactlyAlnum(Decimal(n));
    SanitizeConcat("-", Decimal(n));
    assert Sanitize("-") == "";
    assert Sanitize("-" + Decimal(n)) == Decimal(n);
    if i < 0 {
      assert ToString(Int(i)) == "-" + Decimal(n);
      assert ToString(Int(-i)) == Decimal(n);
    } else if i > 0 {
      assert ToString(Int(i)) == Decimal(n);
      assert ToString(Int(-i)) == "-" + Decimal(n);
    }
  }
}
