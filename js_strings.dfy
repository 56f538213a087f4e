/**
 * The few JavaScript string operations the handlers rely on, with their JavaScript meaning:
 * truthiness of optional strings (`x || null`, `x || 'default'`), `length` counted in UTF-16
 * code units, `String.prototype.trim`, a case-insensitive anchored regular expression
 * (`/^\/truth/i`), a case-insensitive global replace (`s.replace(/@gemini/gi, '')`) and a
 * case-sensitive global replace with an optional trailing newline (`s.replace(/```\n?/g, '')`).
 */
module JsStrings {
  import opened Wrappers

  // ---------------------------------------------------------------------------
  // Truthiness of optional strings

  /** JavaScript truthiness of an optional string: absent and "" are both falsy. */
  predicate Truthy(o: Option<string>) {
    o.Some? && o.value != ""
  }

  /** `x || null`: a present, non-empty value survives; "" and absent become absent. */
  function OrNull(o: Option<string>): (r: Option<string>)
    ensures r.Some? <==> Truthy(o)
    ensures r.Some? ==> r == o
  {
    if Truthy(o) then o else None
  }

  /** `x || d`: the value when it is truthy, otherwise the default `d`. */
  function OrDefault(o: Option<string>, d: string): (r: string)
    ensures Truthy(o) ==> r == o.value
    ensures !Truthy(o) ==> r == d
  {
    if Truthy(o) then o.value else d
  }

  // ---------------------------------------------------------------------------
  // Length

  /** JavaScript `s.length`: characters outside the Basic Multilingual Plane count twice
      (they are a surrogate pair in UTF-16). */
  function Utf16Length(s: string): (n: nat)
    ensures |s| <= n <= 2 * |s|
    ensures n == 0 <==> s == []
  {
    if s == [] then 0
    else (if s[0] as int > 0xFFFF then 2 else 1) + Utf16Length(s[1..])
  }

  // ---------------------------------------------------------------------------
  // String.prototype.trim

  /** WhiteSpace and LineTerminator code points of ECMAScript (section 12.2 and 12.3 of
      ECMA-262): tab, vertical tab, form feed, the space separators of category Zs,
      the byte order mark, and the four line terminators. */
  predicate IsJsWhitespace(c: char) {
    || c == '\t' || c == '\n' || c == '\U{B}' || c == '\U{C}' || c == '\r'
    || c == ' ' || c == '\U{A0}' || c == '\U{1680}'
    || ('\U{2000}' <= c <= '\U{200A}')
    || c == '\U{2028}' || c == '\U{2029}' || c == '\U{202F}' || c == '\U{205F}'
    || c == '\U{3000}' || c == '\U{FEFF}'
  }

  predicate AllWhitespace(s: string) {
    forall i :: 0 <= i < |s| ==> IsJsWhitespace(s[i])
  }

  /** Drops leading white space: the result is the suffix of `s` that starts at its first
      non-white-space character. */
  function TrimStart(s: string): (r: string)
    ensures |r| <= |s| && r == s[|s| - |r|..]
    ensures AllWhitespace(s[..|s| - |r|])
    ensures r == [] || !IsJsWhitespace(r[0])
  {
    if s != [] && IsJsWhitespace(s[0]) then
      var r := TrimStart(s[1..]);
      LeadingWhitespaceGrows(s, r);
      r
    else s
  }

  lemma LeadingWhitespaceGrows(s: string, r: string)
    requires s != [] && IsJsWhitespace(s[0]) && |r| <= |s| - 1
    requires r == s[1..][|s| - 1 - |r|..] && AllWhitespace(s[1..][..|s| - 1 - |r|])
    ensures r == s[|s| - |r|..] && AllWhitespace(s[..|s| - |r|])
  {
    assert s[..|s| - |r|] == [s[0]] + s[1..][..|s| - 1 - |r|];
  }

  /** Drops trailing white space: the result is the prefix of `s` that ends at its last
      non-white-space character. */
  function TrimEnd(s: string): (r: string)
    ensures |r| <= |s| && r == s[..|r|]
    ensures AllWhitespace(s[|r|..])
    ensures r == [] || !IsJsWhitespace(r[|r| - 1])
  {
    if s != [] && IsJsWhitespace(s[|s| - 1]) then
      var r := TrimEnd(s[..|s| - 1]);
      TrailingWhitespaceGrows(s, r);
      r
    else s
  }

  lemma TrailingWhitespaceGrows(s: string, r: string)
    requires s != [] && IsJsWhitespace(s[|s| - 1]) && |r| <= |s| - 1
    requires r == s[..|s| - 1][..|r|] && AllWhitespace(s[..|s| - 1][|r|..])
    ensures r == s[..|r|] && AllWhitespace(s[|r|..])
  {
    assert s[|r|..] == s[..|s| - 1][|r|..] + [s[|s| - 1]];
  }

  /** `s.trim()`. */
  function Trim(s: string): string {
    TrimEnd(TrimStart(s))
  }

  /** A trimmed string is empty exactly when the input is nothing but white space; otherwise
      it starts and ends with a character that is not white space. */
  lemma TrimShape(s: string)
    ensures Trim(s) == [] <==> AllWhitespace(s)
    ensures Trim(s) != [] ==> !IsJsWhitespace(Trim(s)[0]) && !IsJsWhitespace(Trim(s)[|Trim(s)| - 1])
  {
    var a := TrimStart(s);
    var k := |s| - |a|;
    assert a[0..] == a;
    if a != [] {
      assert s[k] == a[0];
    } else {
      assert s[..k] == s;
    }
    if Trim(s) != [] {
      var r := Trim(s);
      assert r == a[..|r|] && r[0] == a[0];
    }
  }

  /** Trimming twice is trimming once. */
  lemma TrimIdempotent(s: string)
    ensures Trim(Trim(s)) == Trim(s)
  {
    TrimShape(s);
  }

  /** A white-space character appended to a string does not survive trimming. */
  lemma TrimDropsTrailingWhitespace(s: string, c: char)
    requires IsJsWhitespace(c)
    ensures Trim(s + [c]) == Trim(s)
  {
    TrimStartAppend(s, c);
    var a := TrimStart(s);
    if a != [] {
      TrimEndStep(a + [c]);
      assert (a + [c])[..|a + [c]| - 1] == a;
    }
  }

  lemma {:induction false} TrimStartAppend(s: string, c: char)
    requires IsJsWhitespace(c)
    ensures TrimStart(s) == [] ==> TrimStart(s + [c]) == []
    ensures TrimStart(s) != [] ==> TrimStart(s + [c]) == TrimStart(s) + [c]
    decreases |s|
  {
    var t := s + [c];
    TrimStartStep(s);
    TrimStartStep(t);
    if s == [] {
      assert t == [c] && t[1..] == [];
      TrimStartStep([]);
    } else {
      TailOfConcat(s, [c]);
      if IsJsWhitespace(s[0]) {
        TrimStartAppend(s[1..], c);
      }
    }
  }

  /** One step of `TrimStart`: a white-space head is dropped, anything else stops it. */
  lemma TrimStartStep(s: string)
    ensures s != [] && IsJsWhitespace(s[0]) ==> TrimStart(s) == TrimStart(s[1..])
    ensures s == [] || !IsJsWhitespace(s[0]) ==> TrimStart(s) == s
  {
  }

  /** One step of `TrimEnd`: a white-space last character is dropped, anything else stops it. */
  lemma TrimEndStep(s: string)
    ensures s != [] && IsJsWhitespace(s[|s| - 1]) ==> TrimEnd(s) == TrimEnd(s[..|s| - 1])
    ensures s == [] || !IsJsWhitespace(s[|s| - 1]) ==> TrimEnd(s) == s
  {
  }

  // ---------------------------------------------------------------------------
  // Case-insensitive matching (the `i` flag on an ASCII pattern)

  /** Case folding as the `i` flag applies it to ASCII letters. Non-ASCII characters never
      fold onto ASCII letters under a non-Unicode regular expression, so they stay as they are. */
  function Lower(c: char): char {
    if 'A' <= c <= 'Z' then (c as int + 32) as char else c
  }

  /** `/^p/i.test(s)`: `s` starts with `p`, ignoring the case of ASCII letters. */
  predicate StartsWithCI(s: string, p: string) {
    |p| <= |s| && forall i :: 0 <= i < |p| ==> Lower(s[i]) == Lower(p[i])
  }

  /** `/p/i.test(s)`: `p` occurs somewhere in `s`, ignoring the case of ASCII letters. */
  predicate ContainsCI(s: string, p: string) {
    exists i :: 0 <= i <= |s| && StartsWithCI(s[i..], p)
  }

  /** `s.replace(/p/gi, '')`: scanning from the left, every match is removed and the scan
      resumes after it, so matches never overlap. */
  function RemoveAllCI(s: string, p: string): string
    requires p != []
    decreases |s|
  {
    if |s| < |p| then s
    else if StartsWithCI(s, p) then RemoveAllCI(s[|p|..], p)
    else [s[0]] + RemoveAllCI(s[1..], p)
  }

  /** Removing every match never lengthens the text, shortens it by at least the pattern's
      length when there is a match, and changes nothing when there is none. */
  lemma {:induction false} RemoveAllCIBounds(s: string, p: string)
    requires p != []
    ensures |RemoveAllCI(s, p)| <= |s|
    ensures ContainsCI(s, p) ==> |RemoveAllCI(s, p)| <= |s| - |p|
    ensures !ContainsCI(s, p) ==> RemoveAllCI(s, p) == s
    decreases |s|
  {
    if |s| < |p| {
      assert !ContainsCI(s, p);
    } else if StartsWithCI(s, p) {
      assert s[0..] == s;
      RemoveAllCIBounds(s[|p|..], p);
    } else {
      RemoveAllCIBounds(s[1..], p);
      ContainsCIPastChar(s, p);
      assert !ContainsCI(s, p) ==> [s[0]] + s[1..] == s;
    }
  }

  /** Past a position where no match starts, a match occurs exactly when one occurs later. */
  lemma ContainsCIPastChar(s: string, p: string)
    requires |s| >= 1 && !StartsWithCI(s, p)
    ensures ContainsCI(s, p) <==> ContainsCI(s[1..], p)
  {
    if ContainsCI(s[1..], p) {
      var i :| 0 <= i <= |s[1..]| && StartsWithCI(s[1..][i..], p);
      assert s[1..][i..] == s[i + 1..];
    }
    if ContainsCI(s, p) {
      var i :| 0 <= i <= |s| && StartsWithCI(s[i..], p);
      assert i != 0 by { assert s[0..] == s; }
      assert s[1..][i - 1..] == s[i..];
    }
  }

  /** Together with the case without a match, this fixes the result for every input: the text
      before the first match is kept, the match is removed, and the scan resumes after it. */
  lemma RemoveAllCIFirstMatch(s: string, p: string, k: nat)
    requires p != [] && k <= |s| && StartsWithCI(s[k..], p)
    requires forall i :: 0 <= i < k ==> !StartsWithCI(s[i..], p)
    ensures RemoveAllCI(s, p) == s[..k] + RemoveAllCI(s[k + |p|..], p)
  {
    NoMatchFromForall(s, p, k);
    assert s == s[..k] + s[k..];
    KeptBeforeMatch(s[..k], s[k..], p);
    assert s[k..][|p|..] == s[k + |p|..];
  }

  /** No match starts at any of the first `k` positions of `s`. */
  predicate NoMatchBefore(s: string, p: string, k: nat)
    decreases k
  {
    k == 0 || (k <= |s| && !StartsWithCI(s, p) && NoMatchBefore(s[1..], p, k - 1))
  }

  lemma {:induction false} NoMatchFromForall(s: string, p: string, k: nat)
    requires k <= |s| && forall i :: 0 <= i < k ==> !StartsWithCI(s[i..], p)
    ensures NoMatchBefore(s, p, k)
    decreases k
  {
    if k > 0 {
      assert s[0..] == s;
      forall i | 0 <= i < k - 1 ensures !StartsWithCI(s[1..][i..], p) {
        assert s[1..][i..] == s[i + 1..];
      }
      NoMatchFromForall(s[1..], p, k - 1);
    }
  }

  lemma {:induction false} KeptBeforeMatch(x: string, t: string, p: string)
    requires p != [] && StartsWithCI(t, p) && NoMatchBefore(x + t, p, |x|)
    ensures RemoveAllCI(x + t, p) == x + RemoveAllCI(t[|p|..], p)
    decreases |x|
  {
    if x == [] {
      assert x + t == t;
      RemoveAllCIAtMatch(t, p);
    } else {
      TailOfConcat(x, t);
      KeptBeforeMatch(x[1..], t, p);
      RemoveAllCIPastChar(x + t, p);
      ConsAppend(x[0], x[1..], RemoveAllCI(t[|p|..], p), x);
    }
  }

  lemma TailOfConcat(x: string, t: string)
    requires x != []
    ensures (x + t)[0] == x[0] && (x + t)[1..] == x[1..] + t
  {
  }

  lemma ConsAppend(c: char, x: string, r: string, y: string)
    requires y == [c] + x
    ensures [c] + (x + r) == y + r
  {
  }

  lemma RemoveAllCIAtMatch(s: string, p: string)
    requires p != [] && StartsWithCI(s, p)
    ensures RemoveAllCI(s, p) == RemoveAllCI(s[|p|..], p)
  {
  }

  lemma RemoveAllCIPastChar(s: string, p: string)
    requires p != [] && |s| >= |p| && !StartsWithCI(s, p)
    ensures RemoveAllCI(s, p) == [s[0]] + RemoveAllCI(s[1..], p)
  {
  }

  // ---------------------------------------------------------------------------
  // Case-sensitive removal of a token with an optional newline after it

  /** No occurrence of `tok` starts anywhere in `s`. */
  predicate NoOccurrence(s: string, tok: string) {
    forall i :: 0 <= i <= |s| ==> !(tok <= s[i..])
  }

  /** `s.replace(/tok\n?/g, '')`: every non-overlapping occurrence of `tok`, scanning from
      the left, is removed together with one newline directly after it, if there is one. */
  function RemoveToken(s: string, tok: string): (r: string)
    requires tok != []
    ensures |r| <= |s|
    decreases |s|
  {
    if s == [] then s
    else if tok <= s then
      var rest := s[|tok|..];
      if rest != [] && rest[0] == '\n' then RemoveToken(rest[1..], tok) else RemoveToken(rest, tok)
    else [s[0]] + RemoveToken(s[1..], tok)
  }

  /** Where `tok` never occurs, removing it changes nothing. */
  lemma {:induction false} RemoveTokenAbsent(s: string, tok: string)
    requires tok != [] && NoOccurrence(s, tok)
    ensures RemoveToken(s, tok) == s
    decreases |s|
  {
    if s != [] {
      assert s[0..] == s;
      assert NoOccurrence(s[1..], tok) by {
        forall i | 0 <= i <= |s[1..]| ensures !(tok <= s[1..][i..]) {
          assert s[1..][i..] == s[i + 1..];
        }
      }
      RemoveTokenAbsent(s[1..], tok);
      assert s == [s[0]] + s[1..];
    }
  }

  /** A prefix none of whose characters can start the token passes through unchanged. */
  lemma {:induction false} RemoveTokenPrefix(x: string, tail: string, tok: string)
    requires tok != [] && forall i :: 0 <= i < |x| ==> x[i] != tok[0]
    ensures RemoveToken(x + tail, tok) == x + RemoveToken(tail, tok)
    decreases |x|
  {
    if x != [] {
      var s := x + tail;
      assert s[0] == x[0] && s[1..] == x[1..] + tail;
      RemoveTokenPrefix(x[1..], tail, tok);
      assert x == [x[0]] + x[1..];
    } else {
      assert x + tail == tail;
    }
  }
}
