/**
 * The Python `str` operations that the log extractors and the dataset
 * reader/writer of laqc_spectrum.py rely on, over `string` (= seq<char>):
 * strip(), startswith(), `sub in s`, split(sep), join(), replace(pat, ""),
 * str() of a non-negative int, left justification and int().
 */
module PyStr {

  datatype Option<T> = None | Some(value: T)

  /** The characters for which Python's str.isspace() holds; strip() removes them. */
  predicate IsSpace(c: char)
  {
    c == ' ' || ('\t' <= c <= '\r') || ('\U{1C}' <= c <= '\U{1F}')
    || c == '\U{85}' || c == '\U{A0}' || c == '\U{1680}'
    || ('\U{2000}' <= c <= '\U{200A}') || c == '\U{2028}' || c == '\U{2029}'
    || c == '\U{202F}' || c == '\U{205F}' || c == '\U{3000}'
  }

  predicate IsDigit(c: char)
  {
    '0' <= c <= '9'
  }

  /** No character of `s` is whitespace. */
  predicate NoSpace(s: string)
  {
    forall i :: 0 <= i < |s| ==> !IsSpace(s[i])
  }

  /** The characters at which reading a text file ends a line: '\n', and '\r' under universal newlines. */
  predicate IsBreak(c: char)
  {
    c == '\n' || c == '\r'
  }

  /** No character of `s` is a line break. */
  predicate NoBreak(s: string)
  {
    forall i :: 0 <= i < |s| ==> !IsBreak(s[i])
  }

  /** A line as iterating over a text file yields it: a line break can only be its last character. */
  predicate IsLine(s: string)
  {
    forall i :: 0 <= i < |s| - 1 ==> !IsBreak(s[i])
  }

  predicate AllSpace(s: string)
  {
    forall i :: 0 <= i < |s| ==> IsSpace(s[i])
  }

  /** s.startswith(prefix), character by character. */
  predicate StartsWith(s: string, prefix: string)
  {
    prefix == [] || (s != [] && s[0] == prefix[0] && StartsWith(s[1..], prefix[1..]))
  }

  /** startswith holds exactly when `prefix` is a slice at the start of `s`. */
  lemma {:induction false} StartsWithSlice(s: string, prefix: string)
    ensures StartsWith(s, prefix) <==> |prefix| <= |s| && s[..|prefix|] == prefix
    decreases |prefix|
  {
    if prefix != [] && s != [] {
      StartsWithSlice(s[1..], prefix[1..]);
      if |prefix| <= |s| {
        assert s[..|prefix|] == [s[0]] + s[1..][..|prefix| - 1];
        assert prefix == [prefix[0]] + prefix[1..];
      }
    }
  }

  /** Python's `sub in s`. */
  predicate Contains(s: string, sub: string)
    decreases |s|
  {
    StartsWith(s, sub) || (s != [] && Contains(s[1..], sub))
  }

  /** s.lstrip(): the longest suffix of `s` that does not start with whitespace. */
  function LStrip(s: string): (r: string)
    ensures |r| <= |s|
    ensures r == [] || !IsSpace(r[0])
    ensures forall i :: 0 <= i < |s| - |r| ==> IsSpace(s[i])
    decreases |s|
  {
    if s != [] && IsSpace(s[0]) then LStrip(s[1..]) else s
  }

  /** s.rstrip(): the longest prefix of `s` that does not end with whitespace. */
  function RStrip(s: string): (r: string)
    ensures |r| <= |s|
    ensures r == [] || !IsSpace(r[|r| - 1])
    ensures forall i :: |r| <= i < |s| ==> IsSpace(s[i])
    decreases |s|
  {
    if s != [] && IsSpace(s[|s| - 1]) then RStrip(s[..|s| - 1]) else s
  }

  /** lstrip() removes a prefix: what is left is a suffix of `s`. */
  lemma {:induction false} LStripSuffix(s: string)
    ensures LStrip(s) == s[|s| - |LStrip(s)|..]
    decreases |s|
  {
    if s != [] && IsSpace(s[0]) {
      LStripSuffix(s[1..]);
    }
  }

  /** rstrip() removes a suffix: what is left is a prefix of `s`. */
  lemma {:induction false} RStripPrefix(s: string)
    ensures RStrip(s) == s[..|RStrip(s)|]
    decreases |s|
  {
    if s != [] && IsSpace(s[|s| - 1]) {
      RStripPrefix(s[..|s| - 1]);
    }
  }

  /** s.strip(): `s` without its leading and trailing whitespace. */
  function Strip(s: string): (r: string)
    ensures |r| <= |s|
    ensures r == [] <==> AllSpace(s)
    ensures r != [] ==> !IsSpace(r[0]) && !IsSpace(r[|r| - 1])
  {
    var l := LStrip(s);
    LStripSuffix(s);
    assert forall i :: |s| - |l| <= i < |s| ==> s[i] == l[i - (|s| - |l|)];
    RStripPrefix(l);
    RStrip(l)
  }

  /** A word without whitespace at either end keeps its text when whitespace is appended and the result stripped. */
  lemma StripPadded(s: string, pad: string)
    requires s == [] || (!IsSpace(s[0]) && !IsSpace(s[|s| - 1]))
    requires AllSpace(pad)
    ensures Strip(s + pad) == s
  {
    if s == [] {
      assert s + pad == pad;
    } else {
      var t := s + pad;
      assert LStrip(t) == t;
      var r := RStrip(t);
      RStripPrefix(t);
      assert t[|s| - 1] == s[|s| - 1];
      assert forall i :: |s| <= i < |t| ==> IsSpace(t[i]) by {
        forall i | |s| <= i < |t| ensures IsSpace(t[i]) {
          assert t[i] == pad[i - |s|];
        }
      }
      assert |r| == |s|;
      assert r == t[..|s|] == s;
    }
  }

  /** Whitespace appended after a text that is not all whitespace stays after what lstrip() keeps. */
  lemma {:induction false} LStripPad(s: string, pad: string)
    requires !AllSpace(s)
    ensures LStrip(s + pad) == LStrip(s) + pad
    decreases |s|
  {
    assert (s + pad)[0] == s[0];
    if IsSpace(s[0]) {
      assert (s + pad)[1..] == s[1..] + pad;
      assert !AllSpace(s[1..]) by {
        var i :| 0 <= i < |s| && !IsSpace(s[i]);
        assert s[1..][i - 1] == s[i];
      }
      LStripPad(s[1..], pad);
    }
  }

  /** rstrip() removes appended whitespace. */
  lemma {:induction false} RStripPad(s: string, pad: string)
    requires AllSpace(pad)
    ensures RStrip(s + pad) == RStrip(s)
    decreases |pad|
  {
    if pad == [] {
      assert s + pad == s;
    } else {
      var t := s + pad;
      assert t[|t| - 1] == pad[|pad| - 1];
      assert t[..|t| - 1] == s + pad[..|pad| - 1];
      RStripPad(s, pad[..|pad| - 1]);
    }
  }

  /** strip() removes appended whitespace. */
  lemma StripPad(s: string, pad: string)
    requires AllSpace(pad)
    ensures Strip(s + pad) == Strip(s)
  {
    if AllSpace(s) {
      assert AllSpace(s + pad) by {
        forall i | 0 <= i < |s + pad| ensures IsSpace((s + pad)[i]) {
          if i < |s| { assert (s + pad)[i] == s[i]; } else { assert (s + pad)[i] == pad[i - |s|]; }
        }
      }
    } else {
      LStripPad(s, pad);
      RStripPad(LStrip(s), pad);
    }
  }

  /** strip() of a line removes its terminator, so what is left holds no line break. */
  lemma StripLine(s: string)
    requires IsLine(s)
    ensures NoBreak(Strip(s))
  {
    var l := LStrip(s);
    LStripSuffix(s);
    RStripPrefix(l);
    var r := RStrip(l);
    assert Strip(s) == r;
    forall i | 0 <= i < |r|
      ensures !IsBreak(r[i])
    {
      assert r[i] == l[i] == s[|s| - |l| + i];
      if |s| - |l| + i == |s| - 1 {
        assert i == |r| - 1;
      }
    }
  }

  /**
   * s.split(sep) for a non-empty separator: the pieces between the successive
   * non-overlapping occurrences of `sep`, found from left to right.
   */
  function Split(s: string, sep: string): (parts: seq<string>)
    requires sep != []
    ensures |parts| >= 1
    decreases |s|
  {
    StartsWithSlice(s, sep);
    if StartsWith(s, sep) then [[]] + Split(s[|sep|..], sep)
    else if s == [] then [[]]
    else
      var rest := Split(s[1..], sep);
      [[s[0]] + rest[0]] + rest[1..]
  }

  /** With a one-character separator, no piece of the split holds that character. */
  lemma {:induction false} SplitPiecesFree(s: string, c: char)
    ensures forall j, i :: 0 <= j < |Split(s, [c])| && 0 <= i < |Split(s, [c])[j]| ==> Split(s, [c])[j][i] != c
    decreases |s|
  {
    var parts := Split(s, [c]);
    StartsWithSlice(s, [c]);
    if StartsWith(s, [c]) {
      SplitPiecesFree(s[1..], c);
      assert parts == [[]] + Split(s[1..], [c]);
    } else if s != [] {
      var rest := Split(s[1..], [c]);
      SplitPiecesFree(s[1..], c);
      assert StartsWith(s[1..], [c][1..]);
      assert s[0] != c;
      assert parts == [[s[0]] + rest[0]] + rest[1..];
      forall j, i | 0 <= j < |parts| && 0 <= i < |parts[j]| ensures parts[j][i] != c {
        if j == 0 {
          if i > 0 {
            assert parts[0][i] == rest[0][i - 1];
          }
        } else {
          assert parts[j] == rest[j];
        }
      }
    }
  }

  /** Splitting a text without line breaks gives pieces without line breaks. */
  lemma {:induction false} SplitNoBreak(s: string, sep: string)
    requires sep != [] && NoBreak(s)
    ensures forall j :: 0 <= j < |Split(s, sep)| ==> NoBreak(Split(s, sep)[j])
    decreases |s|
  {
    var parts := Split(s, sep);
    StartsWithSlice(s, sep);
    if StartsWith(s, sep) {
      assert forall i :: 0 <= i < |s[|sep|..]| ==> s[|sep|..][i] == s[|sep| + i];
      SplitNoBreak(s[|sep|..], sep);
      assert parts == [[]] + Split(s[|sep|..], sep);
    } else if s != [] {
      var rest := Split(s[1..], sep);
      assert forall i :: 0 <= i < |s[1..]| ==> s[1..][i] == s[1 + i];
      SplitNoBreak(s[1..], sep);
      assert parts == [[s[0]] + rest[0]] + rest[1..];
      forall j | 0 <= j < |parts|
        ensures NoBreak(parts[j])
      {
        if j == 0 {
          forall i | 0 <= i < |parts[0]| ensures !IsBreak(parts[0][i]) {
            if i > 0 {
              assert parts[0][i] == rest[0][i - 1];
            }
          }
        } else {
          assert parts[j] == rest[j];
        }
      }
    }
  }

  /** sep.join(parts) */
  function Join(parts: seq<string>, sep: string): string
  {
    if parts == [] then []
    else if |parts| == 1 then parts[0]
    else parts[0] + sep + Join(parts[1..], sep)
  }

  /** Joining the pieces of a split with the same separator gives back the text. */
  lemma {:induction false} JoinSplit(s: string, sep: string)
    requires sep != []
    ensures Join(Split(s, sep), sep) == s
    decreases |s|
  {
    StartsWithSlice(s, sep);
    if StartsWith(s, sep) {
      var rest := Split(s[|sep|..], sep);
      JoinSplit(s[|sep|..], sep);
      assert s[..|sep|] == sep;
      assert Split(s, sep) == [[]] + rest;
      assert ([[]] + rest)[1..] == rest;
      assert Join([[]] + rest, sep) == [] + sep + Join(rest, sep);
      assert s == sep + s[|sep|..];
    } else if s == [] {
      assert Split(s, sep) == [[]];
    } else {
      var rest := Split(s[1..], sep);
      JoinSplit(s[1..], sep);
      assert Split(s, sep) == [[s[0]] + rest[0]] + rest[1..];
      JoinCons(s[0], rest, sep);
      assert s == [s[0]] + s[1..];
    }
  }

  /** A character put in front of the first piece is put in front of the joined text. */
  lemma JoinCons(c: char, rest: seq<string>, sep: string)
    requires |rest| >= 1
    ensures Join([[c] + rest[0]] + rest[1..], sep) == [c] + Join(rest, sep)
  {
    var parts := [[c] + rest[0]] + rest[1..];
    if |rest| > 1 {
      assert parts[1..] == rest[1..];
    }
  }

  /** A word in which the separator's first character does not occur stays at the head of the first piece. */
  lemma {:induction false} SplitWord(a: string, t: string, sep: string)
    requires sep != []
    requires forall i :: 0 <= i < |a| ==> a[i] != sep[0]
    ensures Split(a + t, sep) == [a + Split(t, sep)[0]] + Split(t, sep)[1..]
    decreases |a|
  {
    if a == [] {
      assert a + t == t;
      var x := Split(t, sep);
      assert a + x[0] == x[0];
      assert [a + x[0]] + x[1..] == x;
    } else {
      var s := a + t;
      assert s[0] == a[0];
      assert !StartsWith(s, sep);
      assert s[1..] == a[1..] + t;
      SplitWord(a[1..], t, sep);
      assert [s[0]] + (a[1..] + Split(t, sep)[0]) == a + Split(t, sep)[0];
    }
  }

  /**
   * Splitting texts joined with a one-character separator,
   * followed by a tail without that character, gives the texts back,
   * with the tail on the last one.
   */
  lemma {:induction false} SplitJoin(xs: seq<string>, c: char, tail: string)
    requires |xs| >= 1
    requires forall j, i :: 0 <= j < |xs| && 0 <= i < |xs[j]| ==> xs[j][i] != c
    requires forall i :: 0 <= i < |tail| ==> tail[i] != c
    ensures Split(Join(xs, [c]) + tail, [c]) == xs[..|xs| - 1] + [xs[|xs| - 1] + tail]
    decreases |xs|
  {
    var sep := [c];
    if |xs| == 1 {
      var w := xs[0] + tail;
      assert forall i :: 0 <= i < |w| ==> w[i] != c by {
        forall i | 0 <= i < |w| ensures w[i] != c {
          if i < |xs[0]| { assert w[i] == xs[0][i]; } else { assert w[i] == tail[i - |xs[0]|]; }
        }
      }
      SplitWord(w, [], sep);
      assert w + [] == w;
    } else {
      var rest := Join(xs[1..], sep) + tail;
      assert Join(xs, sep) == xs[0] + sep + Join(xs[1..], sep);
      assert Join(xs, sep) + tail == xs[0] + (sep + rest);
      SplitWord(xs[0], sep + rest, sep);
      StartsWithSlice(sep + rest, sep);
      assert (sep + rest)[..|sep|] == sep;
      assert (sep + rest)[|sep|..] == rest;
      SplitJoin(xs[1..], c, tail);
      var z := Split(sep + rest, sep);
      assert z == [[]] + Split(rest, sep);
      assert z[0] == [] && z[1..] == Split(rest, sep);
      assert xs[0] + z[0] == xs[0];
      assert xs[1..][..|xs[1..]| - 1] == xs[1..|xs| - 1];
      assert xs[..|xs| - 1] == [xs[0]] + xs[1..|xs| - 1];
      assert xs[1..][|xs[1..]| - 1] == xs[|xs| - 1];
    }
  }

  /** The non-empty pieces, in order. */
  function DropEmpty(parts: seq<string>): (r: seq<string>)
    ensures |r| <= |parts|
    decreases |parts|
  {
    if parts == [] then []
    else
      assert parts == parts[..|parts| - 1] + [parts[|parts| - 1]];
      DropEmpty(parts[..|parts| - 1]) + (if parts[|parts| - 1] != [] then [parts[|parts| - 1]] else [])
  }

  /** The tokens of `s`: the non-empty pieces of s.split(" "), none holding a space. */
  function Tokens(s: string): seq<string>
  {
    DropEmpty(Split(s, " "))
  }

  /** DropEmpty keeps exactly the non-empty pieces. */
  lemma {:induction false} DropEmptyPieces(parts: seq<string>)
    ensures forall j :: 0 <= j < |DropEmpty(parts)| ==>
      DropEmpty(parts)[j] != [] && DropEmpty(parts)[j] in parts
    ensures forall k :: 0 <= k < |parts| && parts[k] != [] ==> parts[k] in DropEmpty(parts)
    decreases |parts|
  {
    if parts != [] {
      var init := parts[..|parts| - 1];
      var last := parts[|parts| - 1];
      DropEmptyPieces(init);
      assert parts == init + [last];
      var r := DropEmpty(parts);
      assert r == DropEmpty(init) + (if last != [] then [last] else []);
      forall j | 0 <= j < |r| ensures r[j] != [] && r[j] in parts {
        if j < |DropEmpty(init)| {
          assert r[j] == DropEmpty(init)[j];
        }
      }
      forall k | 0 <= k < |parts| && parts[k] != [] ensures parts[k] in r {
        if k < |init| {
          assert parts[k] == init[k];
        }
      }
    }
  }

  /** Every token is a non-empty word without a space. */
  lemma TokensAreWords(s: string)
    ensures forall j :: 0 <= j < |Tokens(s)| ==> Tokens(s)[j] != []
    ensures forall j, i :: 0 <= j < |Tokens(s)| && 0 <= i < |Tokens(s)[j]| ==> Tokens(s)[j][i] != ' '
  {
    var parts := Split(s, " ");
    DropEmptyPieces(parts);
    SplitPiecesFree(s, ' ');
    forall j, i | 0 <= j < |Tokens(s)| && 0 <= i < |Tokens(s)[j]| ensures Tokens(s)[j][i] != ' ' {
      var k :| 0 <= k < |parts| && parts[k] == Tokens(s)[j];
    }
  }

  /** The tokens of a text without line breaks have none. */
  lemma TokensNoBreak(s: string)
    requires NoBreak(s)
    ensures forall j :: 0 <= j < |Tokens(s)| ==> NoBreak(Tokens(s)[j])
  {
    var parts := Split(s, " ");
    DropEmptyPieces(parts);
    SplitNoBreak(s, " ");
    forall j | 0 <= j < |Tokens(s)| ensures NoBreak(Tokens(s)[j]) {
      var k :| 0 <= k < |parts| && parts[k] == Tokens(s)[j];
    }
  }

  /** The `for i in txt.split(" "): if i != "": resto.append(i)` loop. */
  method SplitTokens(txt: string) returns (resto: seq<string>)
    ensures resto == Tokens(txt)
  {
    var pieces := Split(txt, " ");
    resto := [];
    var k := 0;
    while k < |pieces|
      invariant 0 <= k <= |pieces|
      invariant resto == DropEmpty(pieces[..k])
    {
      assert pieces[..k + 1][..k] == pieces[..k];
      if pieces[k] != "" {
        resto := resto + [pieces[k]];
      }
      k := k + 1;
    }
    assert pieces[..k] == pieces;
  }

  /** A text whose first character is not whitespace has a first token, and it is the first piece. */
  lemma FirstToken(s: string)
    requires s != [] && !IsSpace(s[0])
    ensures Tokens(s) != [] && Tokens(s)[0] == Split(s, " ")[0]
  {
    var pieces := Split(s, " ");
    assert !StartsWith(s, " ");
    assert pieces[0] == [s[0]] + Split(s[1..], " ")[0];
    DropEmptyHead(pieces);
  }

  lemma {:induction false} DropEmptyHead(parts: seq<string>)
    requires parts != [] && parts[0] != []
    ensures DropEmpty(parts) != [] && DropEmpty(parts)[0] == parts[0]
    decreases |parts|
  {
    if |parts| == 1 {
      assert DropEmpty(parts) == DropEmpty([]) + [parts[0]];
    } else {
      DropEmptyHead(parts[..|parts| - 1]);
    }
  }

  function DigitChar(d: nat): (c: char)
    requires d < 10
    ensures IsDigit(c) && c as int - '0' as int == d
  {
    (('0' as int) + d) as char
  }

  /** str(n) for a non-negative int: its decimal digits. */
  function NatToString(n: nat): (s: string)
    ensures s != [] && forall i :: 0 <= i < |s| ==> IsDigit(s[i])
  {
    if n < 10 then [DigitChar(n)] else NatToString(n / 10) + [DigitChar(n % 10)]
  }

  /** The value of a run of decimal digits, underscores ignored. */
  function DigitsValue(t: string): nat
    decreases |t|
  {
    if t == [] then 0
    else if IsDigit(t[|t| - 1]) then 10 * DigitsValue(t[..|t| - 1]) + (t[|t| - 1] as int - '0' as int)
    else DigitsValue(t[..|t| - 1])
  }

  /** Digits that int() accepts: starting and ending with a digit, with single underscores between digits. */
  predicate IsDigitRun(t: string)
  {
    && t != []
    && IsDigit(t[0]) && IsDigit(t[|t| - 1])
    && (forall i :: 0 <= i < |t| ==> IsDigit(t[i]) || t[i] == '_')
    && !Contains(t, "__")
  }

  /** What int(s) accepts in base 10: whitespace around an optional sign followed by a digit run. */
  predicate IsPyIntLiteral(s: string)
  {
    var t := Strip(s);
    IsDigitRun(t) || (t != [] && (t[0] == '+' || t[0] == '-') && IsDigitRun(t[1..]))
  }

  /** int(s): the value, or None where Python raises ValueError. */
  function PyInt(s: string): (r: Option<int>)
    ensures r.Some? <==> IsPyIntLiteral(s)
  {
    var t := Strip(s);
    if t != [] && (t[0] == '+' || t[0] == '-') then
      if IsDigitRun(t[1..]) then
        var v: int := DigitsValue(t[1..]);
        Some(if t[0] == '-' then -v else v)
      else None
    else if IsDigitRun(t) then Some(DigitsValue(t))
    else None
  }

  lemma {:induction false} DigitsOfNat(n: nat)
    ensures DigitsValue(NatToString(n)) == n
  {
    var s := NatToString(n);
    if n < 10 {
      assert s[..|s| - 1] == [];
    } else {
      assert s[..|s| - 1] == NatToString(n / 10);
      DigitsOfNat(n / 10);
    }
  }

  lemma {:induction false} NoUnderscorePair(t: string)
    requires forall i :: 0 <= i < |t| ==> t[i] != '_'
    ensures !Contains(t, "__")
    decreases |t|
  {
    if t != [] {
      if |t| >= 2 {
        assert t[..2][0] == t[0];
      }
      NoUnderscorePair(t[1..]);
    }
  }

  /** int() reads back what str() wrote, whatever whitespace follows it. */
  lemma PyIntOfNat(n: nat, pad: string)
    requires AllSpace(pad)
    ensures PyInt(NatToString(n) + pad) == Some(n)
  {
    var s := NatToString(n);
    StripPadded(s, pad);
    NoUnderscorePair(s);
    DigitsOfNat(n);
    assert IsDigitRun(s);
  }

  function Spaces(k: nat): (r: string)
    ensures |r| == k && AllSpace(r)
    ensures forall i :: 0 <= i < k ==> r[i] == ' '
  {
    seq(k, _ => ' ')
  }

  /** f"{s:<width}": `s` followed by as many spaces as make it `width` long. */
  function LJust(s: string, width: nat): (r: string)
    ensures |r| == if |s| < width then width else |s|
    ensures r[..|s|] == s
    ensures forall i :: |s| <= i < |r| ==> r[i] == ' '
  {
    if |s| < width then s + Spaces(width - |s|) else s
  }

  /** s.replace(pat, ""): the non-overlapping occurrences of `pat`, found from left to right, removed. */
  function RemoveAll(s: string, pat: string): (r: string)
    requires pat != []
    ensures |r| <= |s|
    ensures !Contains(s, pat) ==> r == s
    decreases |s|
  {
    StartsWithSlice(s, pat);
    if StartsWith(s, pat) then RemoveAll(s[|pat|..], pat)
    else if s == [] then []
    else [s[0]] + RemoveAll(s[1..], pat)
  }

  /** Removing a marker introduces no character the text did not have. */
  lemma {:induction false} RemoveAllFree(s: string, pat: string, c: char)
    requires pat != []
    requires forall i :: 0 <= i < |s| ==> s[i] != c
    ensures forall i :: 0 <= i < |RemoveAll(s, pat)| ==> RemoveAll(s, pat)[i] != c
    decreases |s|
  {
    StartsWithSlice(s, pat);
    if StartsWith(s, pat) {
      RemoveAllFree(s[|pat|..], pat, c);
    } else if s != [] {
      RemoveAllFree(s[1..], pat, c);
    }
  }
}
