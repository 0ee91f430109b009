/**
 * The three java.lang.String operations the chat server and client rely on,
 * with Java's exact semantics: `trim()` strips every character whose code is
 * at most U+0020 from both ends, `indexOf(c)` is the first position of `c`
 * or -1, and `startsWith(p)` for a one-character prefix.
 */
module JavaString {

  /** The characters `String.trim()` removes: every code point up to and including the space. */
  predicate IsTrimmable(c: char) {
    c <= ' '
  }

  /** `s` has no trimmable character at either end. */
  predicate IsTrimmed(s: string) {
    s == [] || (!IsTrimmable(s[0]) && !IsTrimmable(s[|s| - 1]))
  }

  /** Drops the trimmable characters at the front of `s`. */
  function TrimStart(s: string): string {
    if |s| > 0 && IsTrimmable(s[0]) then TrimStart(s[1..]) else s
  }

  /** Drops the trimmable characters at the back of `s`. */
  function TrimEnd(s: string): string {
    if |s| > 0 && IsTrimmable(s[|s| - 1]) then TrimEnd(s[..|s| - 1]) else s
  }

  /** `String.trim()`; what it returns is characterised by `TrimIsTrimmedSlice`. */
  function Trim(s: string): string {
    TrimEnd(TrimStart(s))
  }

  /** `TrimStart` keeps a suffix that does not start with a trimmable character, and drops only trimmable ones. */
  lemma {:induction false} TrimStartIsSuffix(s: string)
    ensures |TrimStart(s)| <= |s| && TrimStart(s) == s[|s| - |TrimStart(s)|..]
    ensures TrimStart(s) == [] || !IsTrimmable(TrimStart(s)[0])
    ensures forall k :: 0 <= k < |s| - |TrimStart(s)| ==> IsTrimmable(s[k])
  {
    if |s| > 0 && IsTrimmable(s[0]) {
      TrimStartIsSuffix(s[1..]);
      forall k | 0 <= k < |s| - |TrimStart(s)| ensures IsTrimmable(s[k]) {
        if k > 0 {
          assert s[k] == s[1..][k - 1];
        }
      }
    }
  }

  /** `TrimEnd` keeps a prefix that does not end with a trimmable character, and drops only trimmable ones. */
  lemma {:induction false} TrimEndIsPrefix(s: string)
    ensures |TrimEnd(s)| <= |s| && TrimEnd(s) == s[..|TrimEnd(s)|]
    ensures TrimEnd(s) == [] || !IsTrimmable(TrimEnd(s)[|TrimEnd(s)| - 1])
    ensures forall k :: |TrimEnd(s)| <= k < |s| ==> IsTrimmable(s[k])
  {
    if |s| > 0 && IsTrimmable(s[|s| - 1]) {
      TrimEndIsPrefix(s[..|s| - 1]);
    }
  }

  /** `s[i..j]` is what remains of `s` once its trimmable ends are cut off. */
  predicate TrimmedSlice(s: string, i: int, j: int) {
    && 0 <= i <= j <= |s|
    && IsTrimmed(s[i..j])
    && (forall k :: 0 <= k < i ==> IsTrimmable(s[k]))
    && (forall k :: j <= k < |s| ==> IsTrimmable(s[k]))
  }

  /**
   * `trim()` returns the middle slice of `s` that neither starts nor ends
   * with a trimmable character, and everything it cuts off on either side is
   * trimmable.
   */
  lemma TrimIsTrimmedSlice(s: string)
    ensures IsTrimmed(Trim(s))
    ensures exists i, j :: TrimmedSlice(s, i, j) && Trim(s) == s[i..j]
  {
    var front := TrimStart(s);
    var r := TrimEnd(front);
    var i := |s| - |front|;
    TrimStartIsSuffix(s);
    TrimEndIsPrefix(front);
    assert front == s[i..];
    assert r == s[i..i + |r|];
    forall k | i + |r| <= k < |s| ensures IsTrimmable(s[k]) {
      assert s[k] == front[k - i];
    }
    assert TrimmedSlice(s, i, i + |r|);
  }

  /** `String.indexOf(c)`: the first position of `c` in `s`, or -1 when `c` does not occur. */
  function IndexOf(s: string, c: char): (r: int)
    ensures -1 <= r < |s|
    ensures r == -1 <==> c !in s
    ensures r >= 0 ==> s[r] == c && c !in s[..r]
  {
    if |s| == 0 then -1
    else if s[0] == c then 0
    else
      var i := IndexOf(s[1..], c);
      assert c in s[1..] ==> c in s;
      assert c in s ==> c in s[1..] by {
        if c in s {
          var j :| 0 <= j < |s| && s[j] == c;
          assert s[1..][j - 1] == c;
        }
      }
      if i == -1 then -1
      else
        assert s[..i + 1] == [s[0]] + s[1..][..i];
        i + 1
  }

  /** `s.startsWith(String.valueOf(c))`. */
  predicate StartsWith(s: string, c: char): (b: bool)
    ensures b <==> [c] <= s
  {
    |s| > 0 && s[0] == c
  }

  /** Trimming a trimmed string changes nothing, so `trim()` is idempotent. */
  lemma TrimOfTrimmed(s: string)
    requires IsTrimmed(s)
    ensures Trim(s) == s
  {
    assert TrimStart(s) == s;
    assert TrimEnd(s) == s;
  }

  lemma TrimIdempotent(s: string)
    ensures Trim(Trim(s)) == Trim(s)
  {
    TrimIsTrimmedSlice(s);
    TrimOfTrimmed(Trim(s));
  }

  /** Leading trimmable characters do not change what `trim()` returns. */
  lemma TrimSkipsPrefix(pad: string, s: string)
    requires forall k :: 0 <= k < |pad| ==> IsTrimmable(pad[k])
    ensures Trim(pad + s) == Trim(s)
  {
    TrimStartSkipsPrefix(pad, s);
  }

  lemma {:induction false} TrimStartSkipsPrefix(pad: string, s: string)
    requires forall k :: 0 <= k < |pad| ==> IsTrimmable(pad[k])
    ensures TrimStart(pad + s) == TrimStart(s)
  {
    if pad != [] {
      assert (pad + s)[1..] == pad[1..] + s;
      TrimStartSkipsPrefix(pad[1..], s);
    } else {
      assert pad + s == s;
    }
  }

  /** `trim()` never introduces a character. */
  lemma TrimKeepsAbsentChar(s: string, c: char)
    requires c !in s
    ensures c !in Trim(s)
  {
    TrimIsTrimmedSlice(s);
    var i, j :| TrimmedSlice(s, i, j) && Trim(s) == s[i..j];
    forall k | 0 <= k < j - i ensures Trim(s)[k] != c {
      assert Trim(s)[k] == s[i + k];
    }
  }

  /** Putting a space in front of a trimmed string does not change its trim. */
  lemma TrimOfPaddedTrim(s: string)
    ensures Trim(" " + Trim(s)) == Trim(s)
  {
    TrimSkipsPrefix(" ", Trim(s));
    TrimIdempotent(s);
  }

  /** `trim()` keeps every occurrence of a character it does not strip. */
  lemma TrimKeepsKeptChar(s: string, c: char)
    requires c in s && !IsTrimmable(c)
    ensures c in Trim(s)
  {
    TrimIsTrimmedSlice(s);
    var i, j :| TrimmedSlice(s, i, j) && Trim(s) == s[i..j];
    var k :| 0 <= k < |s| && s[k] == c;
    assert i <= k < j;
    assert Trim(s)[k - i] == c;
  }
}
