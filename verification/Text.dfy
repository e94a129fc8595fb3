// The string operations of the Rust standard library that the discovery records rely on.
module Text {
  import opened Wrappers

  // char::is_whitespace (the Unicode property White_Space) and char::is_control (category Cc).
  predicate IsWhitespace(c: char) {
    var n := c as int;
    || 0x09 <= n <= 0x0D || n == 0x20 || n == 0x85 || n == 0xA0 || n == 0x1680 || 0x2000 <= n <= 0x200A
    || n == 0x2028 || n == 0x2029 || n == 0x202F || n == 0x205F || n == 0x3000
  }

  predicate IsControl(c: char) {
    var n := c as int;
    n < 0x20 || 0x7F <= n <= 0x9F
  }

  function TrimStart(s: string, isSpace: char -> bool): string {
    if s != "" && isSpace(s[0]) then TrimStart(s[1..], isSpace) else s
  }

  function TrimEnd(s: string, isSpace: char -> bool): string {
    if s != "" && isSpace(s[|s| - 1]) then TrimEnd(s[..|s| - 1], isSpace) else s
  }

  function TrimBy(s: string, isSpace: char -> bool): string { TrimEnd(TrimStart(s, isSpace), isSpace) }

  // str::trim
  function Trim(s: string): string { TrimBy(s, IsWhitespace) }

  // No whitespace at either end.
  predicate Trimmed(s: string) { s == "" || (!IsWhitespace(s[0]) && !IsWhitespace(s[|s| - 1])) }

  lemma {:induction false} TrimOfTrimmed(s: string)
    requires Trimmed(s)
    ensures Trim(s) == s
  {
  }

  lemma {:induction false} TrimEndTrims(s: string, isSpace: char -> bool)
    ensures TrimEnd(s, isSpace) <= s
    ensures TrimEnd(s, isSpace) == "" || !isSpace(TrimEnd(s, isSpace)[|TrimEnd(s, isSpace)| - 1])
  {
    if s == "" || !isSpace(s[|s| - 1]) {
    } else {
      TrimEndTrims(s[..|s| - 1], isSpace);
    }
  }

  lemma {:induction false} TrimStartTrims(s: string, isSpace: char -> bool)
    ensures TrimStart(s, isSpace) == "" || !isSpace(TrimStart(s, isSpace)[0])
  {
    if s == "" || !isSpace(s[0]) {
    } else {
      TrimStartTrims(s[1..], isSpace);
    }
  }

  lemma {:induction false} TrimTrims(s: string)
    ensures Trimmed(Trim(s))
  {
    TrimStartTrims(s, IsWhitespace);
    TrimEndTrims(TrimStart(s, IsWhitespace), IsWhitespace);
  }

  // Trimming takes white space off both ends and nothing else.
  lemma {:induction false} TrimExactly(s: string, isSpace: char -> bool) returns (lead: string, trail: string)
    ensures lead + TrimBy(s, isSpace) + trail == s
    ensures forall i :: 0 <= i < |lead| ==> isSpace(lead[i])
    ensures forall i :: 0 <= i < |trail| ==> isSpace(trail[i])
    ensures var t := TrimBy(s, isSpace); t == "" || (!isSpace(t[0]) && !isSpace(t[|t| - 1]))
  {
    lead := LeadOf(s, isSpace);
    var rest := TrimStart(s, isSpace);
    trail := TrailOf(rest, isSpace);
    TrimStartTrims(s, isSpace);
    TrimEndTrims(rest, isSpace);
    assert lead + (TrimEnd(rest, isSpace) + trail) == lead + TrimEnd(rest, isSpace) + trail;
  }

  lemma {:induction false} LeadOf(s: string, isSpace: char -> bool) returns (lead: string)
    ensures lead + TrimStart(s, isSpace) == s && forall i :: 0 <= i < |lead| ==> isSpace(lead[i])
  {
    lead := "";
    if s != "" && isSpace(s[0]) {
      var more := LeadOf(s[1..], isSpace);
      lead := [s[0]] + more;
      assert [s[0]] + (more + TrimStart(s[1..], isSpace)) == s;
    }
  }

  lemma {:induction false} TrailOf(s: string, isSpace: char -> bool) returns (trail: string)
    ensures TrimEnd(s, isSpace) + trail == s && forall i :: 0 <= i < |trail| ==> isSpace(trail[i])
  {
    trail := "";
    if s != "" && isSpace(s[|s| - 1]) {
      var more := TrailOf(s[..|s| - 1], isSpace);
      trail := more + [s[|s| - 1]];
      assert (TrimEnd(s[..|s| - 1], isSpace) + more) + [s[|s| - 1]] == s;
    }
  }

  function LowerChar(c: char): char { if 'A' <= c <= 'Z' then (c as int + 32) as char else c }

  // str::to_ascii_lowercase
  function Lower(s: string): string { seq(|s|, i requires 0 <= i < |s| => LowerChar(s[i])) }

  // The same letter of the ASCII alphabet, or the same character.
  predicate SameLetter(a: char, b: char) {
    || a == b
    || ('A' <= a <= 'Z' && b as int == a as int + 32)
    || ('A' <= b <= 'Z' && a as int == b as int + 32)
  }

  predicate SameButCase(s: string, t: string) {
    |s| == |t| && forall i :: 0 <= i < |s| ==> SameLetter(s[i], t[i])
  }

  // Lower case forgets the case of ASCII letters and nothing else, and has no capital.
  lemma {:induction false} LowerDropsTheCaseExactly(s: string, t: string)
    ensures Lower(s) == Lower(t) <==> SameButCase(s, t)
    ensures forall i :: 0 <= i < |s| ==> !('A' <= Lower(s)[i] <= 'Z')
  {
    if Lower(s) == Lower(t) {
      assert |Lower(s)| == |Lower(t)|;
      forall i | 0 <= i < |s| ensures SameLetter(s[i], t[i]) {
        assert Lower(s)[i] == Lower(t)[i];
      }
    }
  }

  // str::split_once
  function SplitOnce(s: string, c: char): Option<(string, string)> {
    if s == "" then None
    else if s[0] == c then Some(("", s[1..]))
    else
      var rest :- SplitOnce(s[1..], c);
      Some(([s[0]] + rest.0, rest.1))
  }

  lemma {:induction false} SplitOnceOf(a: string, c: char, b: string)
    requires c !in a
    ensures SplitOnce(a + [c] + b, c) == Some((a, b))
  {
    var s := a + [c] + b;
    if a == "" {
      assert s[0] == c && s[1..] == b;
    } else {
      SplitOnceOf(a[1..], c, b);
      assert s[0] == a[0] && s[1..] == a[1..] + [c] + b;
      assert [a[0]] + a[1..] == a;
    }
  }

  // The split is at the first occurrence, and there is none exactly where the character is missing.
  lemma {:induction false} SplitOnceExactly(s: string, c: char)
    ensures SplitOnce(s, c).None? <==> c !in s
    ensures SplitOnce(s, c).Some? ==>
      c !in SplitOnce(s, c).value.0 && s == SplitOnce(s, c).value.0 + [c] + SplitOnce(s, c).value.1
  {
    if s == "" || s[0] == c {
    } else {
      SplitOnceExactly(s[1..], c);
      assert s == [s[0]] + s[1..];
    }
  }

  // str::split: always at least one piece.
  function Split(s: string, c: char): (pieces: seq<string>)
    ensures |pieces| > 0
  {
    if s == "" then [""]
    else if s[0] == c then [""] + Split(s[1..], c)
    else
      var rest := Split(s[1..], c);
      [[s[0]] + rest[0]] + rest[1..]
  }

  // slice::join
  function Join(pieces: seq<string>, c: char): string {
    if pieces == [] then ""
    else if |pieces| == 1 then pieces[0]
    else pieces[0] + [c] + Join(pieces[1..], c)
  }

  // The pieces are what lies between the occurrences of the character.
  lemma {:induction false} SplitExactly(s: string, c: char)
    ensures Join(Split(s, c), c) == s
    ensures forall i :: 0 <= i < |Split(s, c)| ==> c !in Split(s, c)[i]
  {
    if s == "" {
    } else {
      SplitExactly(s[1..], c);
      var rest := Split(s[1..], c);
      assert s == [s[0]] + s[1..];
      if s[0] == c {
        assert ([""] + rest)[1..] == rest;
      } else {
        var first := [s[0]] + rest[0];
        assert ([first] + rest[1..])[1..] == rest[1..];
      }
    }
  }

  lemma {:induction false} SplitOfPiece(piece: string, c: char)
    requires c !in piece
    ensures Split(piece, c) == [piece]
  {
    if piece == "" {
    } else {
      SplitOfPiece(piece[1..], c);
      assert [piece[0]] + piece[1..] == piece;
    }
  }

  lemma {:induction false} SplitOfFirst(piece: string, c: char, rest: string)
    requires c !in piece
    ensures Split(piece + [c] + rest, c) == [piece] + Split(rest, c)
  {
    var s := piece + [c] + rest;
    if piece == "" {
      assert s[0] == c && s[1..] == rest;
    } else {
      SplitOfFirst(piece[1..], c, rest);
      assert s[0] == piece[0] && s[1..] == piece[1..] + [c] + rest;
      assert [piece[0]] + piece[1..] == piece;
    }
  }

  lemma {:induction false} SplitOfJoin(pieces: seq<string>, c: char)
    requires pieces != [] && forall i :: 0 <= i < |pieces| ==> c !in pieces[i]
    ensures Split(Join(pieces, c), c) == pieces
  {
    if |pieces| == 1 {
      SplitOfPiece(pieces[0], c);
    } else {
      SplitOfFirst(pieces[0], c, Join(pieces[1..], c));
      SplitOfJoin(pieces[1..], c);
    }
  }
}
