/** The JavaScript string built-ins the components rely on:
    `toLowerCase`, `trim`, `includes` and `split`. */
module Text {

  /** ECMA-262 WhiteSpace and LineTerminator code points: the characters
      `String.prototype.trim` removes from both ends. */
  predicate IsJsSpace(c: char)
  {
    var n := c as int;
    n == 0x09 || n == 0x0A || n == 0x0B || n == 0x0C || n == 0x0D || n == 0x20
    || n == 0xA0 || n == 0x1680 || (0x2000 <= n <= 0x200A)
    || n == 0x2028 || n == 0x2029 || n == 0x202F || n == 0x205F || n == 0x3000
    || n == 0xFEFF
  }

  predicate IsUpperAscii(c: char)
  {
    'A' <= c <= 'Z'
  }

  /** Lower-casing of one character (ASCII letters only). */
  function LowerChar(c: char): (r: char)
    ensures !IsUpperAscii(r)
    ensures IsUpperAscii(c) ==> r as int == c as int + 32
    ensures !IsUpperAscii(c) ==> r == c
  {
    if IsUpperAscii(c) then (c as int + 32) as char else c
  }

  /** `s.toLowerCase()`: the same length, each upper-case letter replaced
      by its lower-case letter, and every other character kept where it
      was. */
  function Lower(s: string): (r: string)
    ensures |r| == |s|
    ensures forall c :: c in r ==> !IsUpperAscii(c)
    ensures forall i :: 0 <= i < |s| && IsUpperAscii(s[i]) ==> r[i] as int == s[i] as int + 32
    ensures forall i :: 0 <= i < |s| && !IsUpperAscii(s[i]) ==> r[i] == s[i]
  {
    seq(|s|, i requires 0 <= i < |s| => LowerChar(s[i]))
  }

  /** Lower-casing twice is lower-casing once, so comparing lower-cased
      strings is insensitive to case on both sides. */
  lemma LowerIdempotent(s: string)
    ensures Lower(Lower(s)) == Lower(s)
  {
    assert forall i :: 0 <= i < |s| ==> LowerChar(LowerChar(s[i])) == LowerChar(s[i]);
  }

  predicate StartsWith(s: string, prefix: string)
  {
    |prefix| <= |s| && s[..|prefix|] == prefix
  }

  /** `haystack.includes(needle)`, computed by trying each start position. */
  predicate Contains(haystack: string, needle: string)
    ensures Contains(haystack, needle) ==> |needle| <= |haystack|
    decreases |haystack|
  {
    StartsWith(haystack, needle) || (|haystack| > 0 && Contains(haystack[1..], needle))
  }

  /** The reference definition of "occurs as a substring at position i". */
  ghost predicate OccursAt(haystack: string, needle: string, i: int)
  {
    0 <= i && i + |needle| <= |haystack| && haystack[i..i + |needle|] == needle
  }

  /** `Contains` is exactly "the needle occurs at some position". */
  lemma {:induction false} ContainsIff(haystack: string, needle: string)
    ensures Contains(haystack, needle) <==> exists i :: OccursAt(haystack, needle, i)
    decreases |haystack|
  {
    if Contains(haystack, needle) {
      if StartsWith(haystack, needle) {
        assert OccursAt(haystack, needle, 0);
      } else {
        var tail := haystack[1..];
        ContainsIff(tail, needle);
        var i :| OccursAt(tail, needle, i);
        assert haystack[i + 1..i + 1 + |needle|] == tail[i..i + |needle|];
        assert OccursAt(haystack, needle, i + 1);
      }
    }
    forall i | OccursAt(haystack, needle, i)
      ensures Contains(haystack, needle)
    {
      if i == 0 {
        assert StartsWith(haystack, needle);
      } else {
        var tail := haystack[1..];
        assert tail[i - 1..i - 1 + |needle|] == haystack[i..i + |needle|];
        assert OccursAt(tail, needle, i - 1);
        ContainsIff(tail, needle);
      }
    }
  }

  /** Every string includes the empty string, so an empty search term
      matches everything. */
  lemma ContainsEmpty(haystack: string)
    ensures Contains(haystack, "")
  {
  }

  /** Every character is white space (also true of ""). */
  predicate Blank(s: string)
  {
    forall i :: 0 <= i < |s| ==> IsJsSpace(s[i])
  }

  /** The first index at or after `i` that holds no white space, or |s|. */
  function SkipLeading(s: string, i: nat): (r: nat)
    requires i <= |s|
    ensures i <= r <= |s|
    ensures forall j :: i <= j < r ==> IsJsSpace(s[j])
    ensures r < |s| ==> !IsJsSpace(s[r])
    decreases |s| - i
  {
    if i == |s| || !IsJsSpace(s[i]) then i else SkipLeading(s, i + 1)
  }

  /** The end of `s[lo..hi]` once its trailing white space is dropped. */
  function SkipTrailing(s: string, lo: nat, hi: nat): (r: nat)
    requires lo <= hi <= |s|
    ensures lo <= r <= hi
    ensures forall j :: r <= j < hi ==> IsJsSpace(s[j])
    ensures r > lo ==> !IsJsSpace(s[r - 1])
    decreases hi
  {
    if hi == lo || !IsJsSpace(s[hi - 1]) then hi else SkipTrailing(s, lo, hi - 1)
  }

  /** `s.trim()`: the slice of `s` left once the white space at both ends
      is removed; it neither starts nor ends with white space, and it is
      empty exactly when `s` is blank. */
  function Trim(s: string): (r: string)
    ensures exists k :: OccursAt(s, r, k) && Blank(s[..k]) && Blank(s[k + |r|..])
    ensures r == [] || (!IsJsSpace(r[0]) && !IsJsSpace(r[|r| - 1]))
    ensures r == [] <==> Blank(s)
  {
    var lo := SkipLeading(s, 0);
    var hi := SkipTrailing(s, lo, |s|);
    assert OccursAt(s, s[lo..hi], lo);
    assert Blank(s[..lo]) && Blank(s[hi..]);
    assert lo < |s| ==> lo < hi by {
      if lo < |s| {
        assert !IsJsSpace(s[lo]);
      }
    }
    assert Blank(s) ==> lo == |s| by {
      if lo < |s| {
        assert !IsJsSpace(s[lo]);
      }
    }
    s[lo..hi]
  }

  /** A trimmed string is already trimmed. */
  lemma TrimIdempotent(s: string)
    ensures Trim(Trim(s)) == Trim(s)
  {
    var t := Trim(s);
    if t != [] {
      assert SkipLeading(t, 0) == 0;
      assert SkipTrailing(t, 0, |t|) == |t|;
    }
  }

  /** Trimming keeps only characters of the input. */
  lemma TrimSubset(s: string, c: char)
    requires c in Trim(s)
    ensures c in s
  {
    var t := Trim(s);
    var k :| OccursAt(s, t, k);
    OccursSubset(s, t, k, c);
  }

  lemma OccursSubset(s: string, t: string, k: int, c: char)
    requires OccursAt(s, t, k) && c in t
    ensures c in s
  {
    var i :| 0 <= i < |t| && t[i] == c;
    assert s[k + i] == c;
  }

  /** `s.split(sep)` for a one-character separator: the pieces between
      separators, including empty ones; splitting "" gives [""]. */
  function Split(s: string, sep: char): (r: seq<string>)
    ensures |r| >= 1
    ensures forall i :: 0 <= i < |r| ==> sep !in r[i]
  {
    if s == [] then [""]
    else
      var rest := Split(s[1..], sep);
      if s[0] == sep then [""] + rest else [[s[0]] + rest[0]] + rest[1..]
  }

  /** `parts.join(sep)`. */
  function Join(parts: seq<string>, sep: char): string
    requires |parts| >= 1
  {
    if |parts| == 1 then parts[0] else parts[0] + [sep] + Join(parts[1..], sep)
  }

  /** Splitting loses nothing: joining the pieces gives back the input. */
  lemma {:induction false} JoinSplit(s: string, sep: char)
    ensures Join(Split(s, sep), sep) == s
  {
    if s != [] {
      var rest := Split(s[1..], sep);
      JoinSplit(s[1..], sep);
      if s[0] == sep {
        assert Split(s, sep)[1..] == rest;
      } else {
        var r := Split(s, sep);
        assert r[1..] == rest[1..];
        if |rest| == 1 {
          assert Join(r, sep) == [s[0]] + rest[0];
        } else {
          assert Join(r, sep) == [s[0]] + rest[0] + [sep] + Join(rest[1..], sep);
        }
        assert [s[0]] + Join(rest, sep) == s;
      }
    }
  }

  /** The text test shared by the search page and the notes page: the
      lower-cased term occurs in the lower-cased title, content or one of
      the tags (a tag matches on a substring, not only on equality). */
  predicate TextMatches(title: string, content: string, tags: seq<string>, term: string)
  {
    var q := Lower(term);
    Contains(Lower(title), q) || Contains(Lower(content), q)
    || exists tag :: tag in tags && Contains(Lower(tag), q)
  }

  /** The empty term matches every record. */
  lemma EmptyTermMatches(title: string, content: string, tags: seq<string>)
    ensures TextMatches(title, content, tags, "")
  {
    assert Lower("") == "";
    ContainsEmpty(Lower(title));
  }
}
