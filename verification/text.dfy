/**
 * ASCII subset of the string helpers the picker uses: `strings.TrimSpace`,
 * `strings.ToLower` and the one-character `strings.HasPrefix(name, "#")`.
 * Non-ASCII white space and letters are out of scope (see README).
 */
module Text {

  /** The ASCII characters Go's `unicode.IsSpace` accepts. */
  predicate IsSpace(c: char) {
    c == ' ' || c == '\t' || c == '\n' || c == '\U{000B}' || c == '\U{000C}' || c == '\r'
  }

  /** A string with no white space at either end. */
  predicate IsTrimmed(s: string) {
    |s| > 0 ==> !IsSpace(s[0]) && !IsSpace(s[|s| - 1])
  }

  /** Drops the white space at the front: what is left starts with something else (see `TrimLeftSuffix`). */
  function TrimLeft(s: string): (r: string)
    ensures |r| <= |s|
    ensures |r| > 0 ==> !IsSpace(r[0])
  {
    if |s| > 0 && IsSpace(s[0]) then TrimLeft(s[1..]) else s
  }

  /** Drops the white space at the back: what is left ends with something else (see `TrimRightPrefix`). */
  function TrimRight(s: string): (r: string)
    ensures |r| <= |s|
    ensures |r| > 0 ==> !IsSpace(r[|r| - 1])
  {
    if |s| > 0 && IsSpace(s[|s| - 1]) then TrimRight(s[..|s| - 1]) else s
  }

  /** What `TrimLeft` keeps is a suffix of its input. */
  lemma {:induction false} TrimLeftSuffix(s: string)
    ensures TrimLeft(s) == s[|s| - |TrimLeft(s)|..]
  {
    if |s| > 0 && IsSpace(s[0]) {
      TrimLeftSuffix(s[1..]);
      assert s[1..][|s| - 1 - |TrimLeft(s)|..] == s[|s| - |TrimLeft(s)|..];
    }
  }

  /** What `TrimRight` keeps is a prefix of its input. */
  lemma {:induction false} TrimRightPrefix(s: string)
    ensures TrimRight(s) == s[..|TrimRight(s)|]
  {
    if |s| > 0 && IsSpace(s[|s| - 1]) {
      TrimRightPrefix(s[..|s| - 1]);
      assert s[..|s| - 1][..|TrimRight(s)|] == s[..|TrimRight(s)|];
    }
  }

  /** Everything `TrimLeft` drops is white space. */
  lemma {:induction false} TrimLeftDropsSpace(s: string)
    ensures forall k :: 0 <= k < |s| - |TrimLeft(s)| ==> IsSpace(s[k])
  {
    if |s| > 0 && IsSpace(s[0]) {
      TrimLeftDropsSpace(s[1..]);
      assert forall k :: 1 <= k < |s| ==> s[k] == s[1..][k - 1];
    }
  }

  /** Everything `TrimRight` drops is white space. */
  lemma {:induction false} TrimRightDropsSpace(s: string)
    ensures forall k :: |TrimRight(s)| <= k < |s| ==> IsSpace(s[k])
  {
    if |s| > 0 && IsSpace(s[|s| - 1]) {
      TrimRightDropsSpace(s[..|s| - 1]);
      assert forall k :: 0 <= k < |s| - 1 ==> s[k] == s[..|s| - 1][k];
    }
  }

  /** How many white-space characters `TrimLeft` drops from the front of `s`. */
  function TrimStart(s: string): (n: nat)
    ensures n <= |s|
  {
    |s| - |TrimLeft(s)|
  }

  /** `strings.TrimSpace`: drops white space at both ends (see `TrimIsSlice`). */
  function Trim(s: string): (r: string)
    ensures IsTrimmed(r)
    ensures |r| <= |s|
  {
    TrimRightPrefix(TrimLeft(s));
    TrimRight(TrimLeft(s))
  }

  /** What `Trim` keeps is one slice of its input, and everything around it is white space. */
  lemma TrimIsSlice(s: string)
    ensures TrimStart(s) + |Trim(s)| <= |s|
    ensures Trim(s) == s[TrimStart(s)..TrimStart(s) + |Trim(s)|]
    ensures forall k :: 0 <= k < TrimStart(s) ==> IsSpace(s[k])
    ensures forall k :: TrimStart(s) + |Trim(s)| <= k < |s| ==> IsSpace(s[k])
  {
    TrimKeepsSlice(s);
    TrimLeftDropsSpace(s);
    TrimDropsBack(s);
  }

  lemma TrimKeepsSlice(s: string)
    ensures TrimStart(s) + |Trim(s)| <= |s|
    ensures Trim(s) == s[TrimStart(s)..TrimStart(s) + |Trim(s)|]
  {
    var i, l := TrimStart(s), TrimLeft(s);
    var r := TrimRight(l);
    assert l == s[i..] by {
      TrimLeftSuffix(s);
    }
    assert r == l[..|r|] by {
      TrimRightPrefix(l);
    }
    assert Trim(s) == r;
    assert s[i..][..|r|] == s[i..i + |r|];
  }

  lemma TrimDropsBack(s: string)
    ensures forall k :: TrimStart(s) + |Trim(s)| <= k < |s| ==> IsSpace(s[k])
  {
    var i, l := TrimStart(s), TrimLeft(s);
    var r := TrimRight(l);
    TrimLeftSuffix(s);
    TrimRightDropsSpace(l);
    forall k | i + |r| <= k < |s|
      ensures IsSpace(s[k])
    {
      assert s[k] == l[k - i];
    }
  }

  /** Trimming leaves a trimmed string alone. */
  lemma TrimTrimmed(s: string)
    requires IsTrimmed(s)
    ensures Trim(s) == s
  {
    assert TrimLeft(s) == s;
    assert TrimRight(s) == s;
  }

  /** `strings.TrimSpace` is idempotent. */
  lemma TrimIdempotent(s: string)
    ensures Trim(Trim(s)) == Trim(s)
  {
    TrimTrimmed(Trim(s));
  }

  /** A string is blank exactly when it is all white space. */
  lemma TrimEmptyIffBlank(s: string)
    ensures Trim(s) == [] <==> forall k :: 0 <= k < |s| ==> IsSpace(s[k])
  {
    TrimIsSlice(s);
  }

  /** Trimming removes exactly the white space padding around a trimmed core. */
  lemma TrimPadded(pre: string, core: string, post: string)
    requires forall k :: 0 <= k < |pre| ==> IsSpace(pre[k])
    requires forall k :: 0 <= k < |post| ==> IsSpace(post[k])
    requires core != [] && IsTrimmed(core)
    ensures Trim(pre + core + post) == core
  {
    var s := pre + core + post;
    assert s == pre + (core + post);
    TrimLeftPadded(pre, core + post);
    TrimRightPadded(core, post);
    assert Trim(s) == TrimRight(TrimLeft(s));
  }

  lemma {:induction false} TrimLeftPadded(pre: string, rest: string)
    requires forall k :: 0 <= k < |pre| ==> IsSpace(pre[k])
    requires rest != [] && !IsSpace(rest[0])
    ensures TrimLeft(pre + rest) == rest
  {
    if pre != [] {
      assert (pre + rest)[1..] == pre[1..] + rest;
      TrimLeftPadded(pre[1..], rest);
    } else {
      assert pre + rest == rest;
    }
  }

  lemma {:induction false} TrimRightPadded(rest: string, post: string)
    requires forall k :: 0 <= k < |post| ==> IsSpace(post[k])
    requires rest != [] && !IsSpace(rest[|rest| - 1])
    ensures TrimRight(rest + post) == rest
  {
    if post != [] {
      var s := rest + post;
      assert s[..|s| - 1] == rest + post[..|post| - 1];
      TrimRightPadded(rest, post[..|post| - 1]);
    } else {
      assert rest + post == rest;
    }
  }

  /** ASCII `unicode.ToLower`. */
  function LowerChar(c: char): (d: char)
    ensures 'A' <= c <= 'Z' ==> 'a' <= d <= 'z' && d as int - c as int == 'a' as int - 'A' as int
    ensures !('A' <= c <= 'Z') ==> d == c
  {
    if 'A' <= c <= 'Z' then (c as int - 'A' as int + 'a' as int) as char else c
  }

  /** `strings.ToLower` on ASCII text, character by character (see `ToLowerFolds`). */
  function ToLower(s: string): (r: string)
    ensures |r| == |s|
  {
    if s == [] then [] else [LowerChar(s[0])] + ToLower(s[1..])
  }

  lemma {:induction false} ToLowerAt(s: string, k: nat)
    requires k < |s|
    ensures ToLower(s)[k] == LowerChar(s[k])
  {
    if k > 0 {
      ToLowerAt(s[1..], k - 1);
    }
  }

  /** Each letter is folded to lower case, nothing else is touched, and no capital is left. */
  lemma ToLowerFolds(s: string)
    ensures forall k :: 0 <= k < |s| ==> ToLower(s)[k] == LowerChar(s[k])
    ensures forall k :: 0 <= k < |s| ==> !('A' <= ToLower(s)[k] <= 'Z')
  {
    forall k | 0 <= k < |s|
      ensures ToLower(s)[k] == LowerChar(s[k])
    {
      ToLowerAt(s, k);
    }
  }

  /** Lower-casing keeps white space where it was, so it commutes with trimming. */
  lemma ToLowerTrimCommute(s: string)
    ensures Trim(ToLower(s)) == ToLower(Trim(s))
  {
    TrimLeftLower(s);
    TrimRightLower(TrimLeft(s));
  }

  lemma {:induction false} TrimLeftLower(s: string)
    ensures TrimLeft(ToLower(s)) == ToLower(TrimLeft(s))
  {
    if |s| == 0 {
      assert ToLower(s) == [];
    } else if IsSpace(s[0]) {
      TrimLeftLowerStep(s);
      TrimLeftLower(s[1..]);
    } else {
      ToLowerAt(s, 0);
      assert !IsSpace(ToLower(s)[0]);
      assert TrimLeft(ToLower(s)) == ToLower(s);
    }
  }

  /** A leading space is dropped alike before and after lower-casing. */
  lemma TrimLeftLowerStep(s: string)
    requires |s| > 0 && IsSpace(s[0])
    ensures TrimLeft(ToLower(s)) == TrimLeft(ToLower(s[1..]))
  {
    var t := ToLower(s);
    ToLowerAt(s, 0);
    assert TrimLeft(t) == TrimLeft(t[1..]);
    assert t[1..] == ToLower(s[1..]);
  }

  lemma {:induction false} TrimRightLower(s: string)
    ensures TrimRight(ToLower(s)) == ToLower(TrimRight(s))
  {
    if |s| > 0 {
      var t := ToLower(s);
      ToLowerAt(s, |s| - 1);
      if IsSpace(s[|s| - 1]) {
        assert TrimRight(t) == TrimRight(t[..|s| - 1]);
        ToLowerPrefix(s, |s| - 1);
        TrimRightLower(s[..|s| - 1]);
      } else {
        assert TrimRight(t) == t;
      }
    }
  }

  lemma {:induction false} ToLowerPrefix(s: string, n: nat)
    requires n <= |s|
    ensures ToLower(s)[..n] == ToLower(s[..n])
  {
    if n > 0 {
      assert s[..n][1..] == s[1..][..n - 1];
      ToLowerPrefix(s[1..], n - 1);
    }
  }

  /** `strings.HasPrefix(name, "#")`. */
  predicate IsComment(s: string) {
    |s| > 0 && s[0] == '#'
  }
}
