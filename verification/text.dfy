/** String operations of JavaScript that the input handling relies on: `trim`, `split` on a
    one-character separator, regular-expression stripping and decimal rendering of integers. */
module Text {

  /** White space as JavaScript's `trim` and the regular-expression class `\s` see it:
      the WhiteSpace and LineTerminator characters of ECMA-262. */
  predicate IsJsSpace(c: char)
  {
    || c == '\t' || c == '\n' || c == '\U{000B}' || c == '\U{000C}' || c == '\r' || c == ' '
    || c == '\U{00A0}' || c == '\U{1680}' || ('\U{2000}' <= c <= '\U{200A}')
    || c == '\U{2028}' || c == '\U{2029}' || c == '\U{202F}' || c == '\U{205F}'
    || c == '\U{3000}' || c == '\U{FEFF}'
  }

  /** Text of white space only, the empty text included. */
  predicate AllSpaces(s: string)
  {
    forall k :: 0 <= k < |s| ==> IsJsSpace(s[k])
  }

  predicate IsDigit(c: char)
  {
    '0' <= c <= '9'
  }

  predicate AllDigits(s: string)
  {
    forall i :: 0 <= i < |s| ==> IsDigit(s[i])
  }

  /** Number of white-space characters at the start of `s`. */
  function LeadingSpaces(s: string): (n: nat)
    ensures n <= |s|
    ensures forall i :: 0 <= i < n ==> IsJsSpace(s[i])
    ensures n == |s| || !IsJsSpace(s[n])
  {
    if |s| > 0 && IsJsSpace(s[0]) then 1 + LeadingSpaces(s[1..]) else 0
  }

  /** Number of white-space characters at the end of `s`. */
  function TrailingSpaces(s: string): (n: nat)
    ensures n <= |s|
    ensures forall i :: |s| - n <= i < |s| ==> IsJsSpace(s[i])
    ensures n == |s| || !IsJsSpace(s[|s| - n - 1])
  {
    if |s| > 0 && IsJsSpace(s[|s| - 1]) then 1 + TrailingSpaces(s[..|s| - 1]) else 0
  }

  /** `String.prototype.trim`. */
  function Trim(s: string): (r: string)
    ensures |r| == 0 || (!IsJsSpace(r[0]) && !IsJsSpace(r[|r| - 1]))
    ensures exists a, b ::
              && 0 <= a <= b <= |s| && r == s[a..b]
              && (forall i :: 0 <= i < a ==> IsJsSpace(s[i]))
              && (forall i :: b <= i < |s| ==> IsJsSpace(s[i]))
  {
    var a := LeadingSpaces(s);
    var t := s[a..];
    var b := |t| - TrailingSpaces(t);
    assert t[..b] == s[a..a + b];
    t[..b]
  }

  /** Trimming white space off both sides of a text that neither starts nor ends with it gives
      the text back. */
  lemma TrimPadded(l: string, t: string, r: string)
    requires AllSpaces(l) && AllSpaces(r) && |t| >= 1 && !IsJsSpace(t[0]) && !IsJsSpace(t[|t| - 1])
    ensures Trim(l + t + r) == t
  {
    var s := l + t + r;
    var x := Trim(s);
    var a, b :| && 0 <= a <= b <= |s| && x == s[a..b]
                && (forall i :: 0 <= i < a ==> IsJsSpace(s[i]))
                && (forall i :: b <= i < |s| ==> IsJsSpace(s[i]));
    assert s[|l|] == t[0];
    assert s[|l| + |t| - 1] == t[|t| - 1];
    assert s[|l|..|l| + |t|] == t;
  }

  /** Trimming text that neither starts nor ends with white space changes nothing. */
  lemma TrimIdentity(s: string)
    requires |s| == 0 || (!IsJsSpace(s[0]) && !IsJsSpace(s[|s| - 1]))
    ensures Trim(s) == s
  {
    assert LeadingSpaces(s) == 0;
    assert s[0..] == s;
  }

  /** Number of occurrences of `c` in `s`. */
  function CountChar(s: string, c: char): nat
  {
    if |s| == 0 then 0 else CountChar(s[..|s| - 1], c) + (if s[|s| - 1] == c then 1 else 0)
  }

  /** Index of the first `c` in `s`, or `|s|` when there is none. */
  function IndexOf(s: string, c: char): (i: nat)
    ensures i <= |s|
    ensures i < |s| ==> s[i] == c
    ensures c !in s[..i]
    ensures i == |s| <==> c !in s
  {
    if |s| == 0 then 0
    else if s[0] == c then 0
    else
      var j := IndexOf(s[1..], c);
      assert s[..1 + j] == [s[0]] + s[1..][..j];
      1 + j
  }

  /** `s.split(sep)` for a one-character separator: the pieces between separators, in order,
      always at least one (the empty string splits into one empty piece). */
  function Split(s: string, sep: char): (parts: seq<string>)
    ensures |parts| >= 1
    ensures forall i :: 0 <= i < |parts| ==> sep !in parts[i]
    ensures Join(parts, sep) == s
    decreases |s|
  {
    var i := IndexOf(s, sep);
    if i == |s| then [s]
    else
      var rest := Split(s[i + 1..], sep);
      JoinCons(s[..i], rest, sep);
      assert s == s[..i] + [sep] + s[i + 1..];
      [s[..i]] + rest
  }

  /** `parts.join(sep)` with a one-character separator. */
  function Join(parts: seq<string>, sep: char): string
  {
    if |parts| == 0 then ""
    else if |parts| == 1 then parts[0]
    else parts[0] + [sep] + Join(parts[1..], sep)
  }

  lemma JoinCons(head: string, rest: seq<string>, sep: char)
    requires |rest| >= 1
    ensures Join([head] + rest, sep) == head + [sep] + Join(rest, sep)
  {
    assert ([head] + rest)[1..] == rest;
  }

  /** Splitting text that was joined from separator-free pieces gives the pieces back: together
      with `Join(Split(s, sep), sep) == s` this makes `Split` and `Join` inverse bijections
      between strings and non-empty lists of separator-free pieces. */
  lemma {:induction false} SplitJoin(parts: seq<string>, sep: char)
    requires |parts| >= 1
    requires forall i :: 0 <= i < |parts| ==> sep !in parts[i]
    ensures Split(Join(parts, sep), sep) == parts
    decreases |parts|
  {
    var s := Join(parts, sep);
    if |parts| == 1 {
      assert IndexOf(s, sep) == |s|;
    } else {
      var p := parts[0];
      JoinCons(p, parts[1..], sep);
      assert parts == [p] + parts[1..];
      var rest := Join(parts[1..], sep);
      assert s == p + [sep] + rest;
      IndexOfAfterPrefix(p, rest, sep);
      assert s[..|p|] == p;
      assert s[|p| + 1..] == rest;
      assert Split(s, sep) == [p] + Split(rest, sep);
      SplitJoin(parts[1..], sep);
    }
  }

  lemma IndexOfAfterPrefix(p: string, rest: string, sep: char)
    requires sep !in p
    ensures IndexOf(p + [sep] + rest, sep) == |p|
  {
    var s := p + [sep] + rest;
    assert s[..|p|] == p;
    assert s[|p|] == sep;
  }

  /** The number of pieces is one more than the number of separators. */
  lemma {:induction false} SplitCount(s: string, sep: char)
    ensures |Split(s, sep)| == CountChar(s, sep) + 1
    decreases |s|
  {
    var i := IndexOf(s, sep);
    if i == |s| {
      CountAbsent(s, sep);
    } else {
      SplitCount(s[i + 1..], sep);
      CountConcat(s[..i], [sep] + s[i + 1..], sep);
      CountConcat([sep], s[i + 1..], sep);
      assert s == s[..i] + ([sep] + s[i + 1..]);
      CountAbsent(s[..i], sep);
      assert CountChar([sep], sep) == 1 by {
        assert [sep][..0] == [];
      }
    }
  }

  lemma {:induction false} CountAbsent(s: string, c: char)
    requires c !in s
    ensures CountChar(s, c) == 0
  {
    if |s| > 0 {
      assert s[..|s| - 1] + [s[|s| - 1]] == s;
      CountAbsent(s[..|s| - 1], c);
    }
  }

  lemma {:induction false} CountConcat(a: string, b: string, c: char)
    ensures CountChar(a + b, c) == CountChar(a, c) + CountChar(b, c)
    decreases |b|
  {
    if |b| > 0 {
      assert (a + b)[..|a + b| - 1] == a + b[..|b| - 1];
      CountConcat(a, b[..|b| - 1], c);
    } else {
      assert a + b == a;
    }
  }

  /** Deletes every character `drop` accepts, as `s.replace(/[...]+/g, "")` does. */
  function RemoveAll(s: string, drop: char -> bool): (r: string)
    ensures |r| <= |s|
    ensures forall i :: 0 <= i < |r| ==> !drop(r[i])
    ensures (forall i :: 0 <= i < |s| ==> !drop(s[i])) ==> r == s
    ensures forall c :: c in r ==> c in s
    ensures forall c :: c in s && !drop(c) ==> c in r
  {
    if |s| == 0 then ""
    else
      var rest := RemoveAll(s[1..], drop);
      if drop(s[0]) then rest else [s[0]] + rest
  }

  predicate IsSpaceOrTab(c: char)
  {
    c == ' ' || c == '\t'
  }

  /** `text.replace(/[ \t]+/g, "")`: every space and tab removed, line breaks kept. */
  function StripSpacesAndTabs(s: string): (r: string)
    ensures forall i :: 0 <= i < |r| ==> !IsSpaceOrTab(r[i])
    ensures (forall i :: 0 <= i < |s| ==> !IsSpaceOrTab(s[i])) ==> r == s
    ensures CountChar(r, '\n') == CountChar(s, '\n')
    ensures forall c :: !IsSpaceOrTab(c) ==> (c in r <==> c in s)
  {
    RemoveKeepsCount(s, IsSpaceOrTab, '\n');
    RemoveAll(s, IsSpaceOrTab)
  }

  /** `text.replace(/\s/g, "")`: every white-space character removed, line breaks included. */
  function StripWhitespace(s: string): (r: string)
    ensures forall i :: 0 <= i < |r| ==> !IsJsSpace(r[i])
    ensures (forall i :: 0 <= i < |s| ==> !IsJsSpace(s[i])) ==> r == s
    ensures forall c :: !IsJsSpace(c) ==> (c in r <==> c in s)
  {
    RemoveAll(s, IsJsSpace)
  }

  /** Both strippings work character by character: a piece of text is stripped on its own,
      a stripped character vanishes and any other character stays. Together these determine
      the result, kept characters in their order. */
  lemma StripPieces(a: string, b: string, c: char)
    ensures StripSpacesAndTabs(a + b) == StripSpacesAndTabs(a) + StripSpacesAndTabs(b)
    ensures StripWhitespace(a + b) == StripWhitespace(a) + StripWhitespace(b)
    ensures StripSpacesAndTabs([c]) == if IsSpaceOrTab(c) then "" else [c]
    ensures StripWhitespace([c]) == if IsJsSpace(c) then "" else [c]
  {
    RemoveAllConcat(a, b, IsSpaceOrTab);
    RemoveAllConcat(a, b, IsJsSpace);
  }

  /** Stripping spaces and tabs keeps every line break. */
  lemma {:induction false} RemoveKeepsCount(s: string, drop: char -> bool, c: char)
    requires !drop(c)
    ensures CountChar(RemoveAll(s, drop), c) == CountChar(s, c)
    decreases |s|
  {
    if |s| > 0 {
      RemoveKeepsCount(s[1..], drop, c);
      assert s == [s[0]] + s[1..];
      CountConcat([s[0]], s[1..], c);
      var rest := RemoveAll(s[1..], drop);
      CountConcat([s[0]], rest, c);
      assert [s[0]][..0] == [];
    }
  }

  /** ASCII lower-casing, the part of `toLowerCase` that file extensions need. */
  function LowerAscii(s: string): (r: string)
    ensures |r| == |s|
    ensures forall i :: 0 <= i < |s| ==> r[i] == (if 'A' <= s[i] <= 'Z' then (s[i] as int + 32) as char else s[i])
  {
    if |s| == 0 then "" else [if 'A' <= s[0] <= 'Z' then (s[0] as int + 32) as char else s[0]] + LowerAscii(s[1..])
  }

  /** Decimal digits of a natural number, without leading zeros (`String(n)`). */
  function NatToString(n: nat): (r: string)
    ensures |r| >= 1 && AllDigits(r)
    ensures r[0] == '0' ==> n == 0 && |r| == 1
  {
    if n < 10 then [(('0' as int) + n) as char]
    else NatToString(n / 10) + [(('0' as int) + n % 10) as char]
  }

  /** `String(i)` writes an integer as plain digits only below this magnitude (10^21); from
      there on it uses exponent form, as in "1e+21". */
  const PlainDigitsLimit: int := 1_000_000_000_000_000_000_000

  /** Decimal rendering of an integer: a minus sign before negative values. This is
      `String(i)` for `-PlainDigitsLimit < i < PlainDigitsLimit`. */
  function IntToString(i: int): (r: string)
    ensures |r| >= 1
    ensures i >= 0 ==> AllDigits(r)
    ensures i < 0 ==> r[0] == '-' && |r| >= 2 && AllDigits(r[1..])
  {
    if i >= 0 then NatToString(i) else "-" + NatToString(-i)
  }

  /** Value of a string of decimal digits. */
  function DigitsValue(s: string): nat
    requires AllDigits(s)
  {
    if |s| == 0 then 0 else DigitsValue(s[..|s| - 1]) * 10 + (s[|s| - 1] as int - '0' as int)
  }

  /** Reading back the rendered digits gives the number. */
  lemma {:induction false} NatToStringValue(n: nat)
    ensures DigitsValue(NatToString(n)) == n
  {
    if n >= 10 {
      NatToStringValue(n / 10);
      var r := NatToString(n);
      assert r[..|r| - 1] == NatToString(n / 10);
    }
  }

  /** `s.startsWith(p, i)`. */
  predicate StartsWithAt(s: string, i: nat, p: string)
    decreases |p|
  {
    i + |p| <= |s| && (|p| == 0 || (s[i] == p[0] && StartsWithAt(s, i + 1, p[1..])))
  }

  /** A character other than the separator that no piece holds is not in the joined text. */
  lemma {:induction false} JoinAvoids(parts: seq<string>, sep: char, c: char)
    requires c != sep
    requires forall i :: 0 <= i < |parts| ==> c !in parts[i]
    ensures c !in Join(parts, sep)
    decreases |parts|
  {
    if |parts| > 1 {
      JoinAvoids(parts[1..], sep, c);
    }
  }

  /** Deleting characters piece by piece is deleting them from the whole. */
  lemma {:induction false} RemoveAllConcat(a: string, b: string, drop: char -> bool)
    ensures RemoveAll(a + b, drop) == RemoveAll(a, drop) + RemoveAll(b, drop)
    decreases |a|
  {
    if |a| > 0 {
      assert (a + b)[1..] == a[1..] + b;
      RemoveAllConcat(a[1..], b, drop);
    } else {
      assert a + b == b;
    }
  }
}
