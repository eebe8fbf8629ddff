/** Reading whitespace-separated integers from a line of text, as
    `list(map(int, line.split()))` does, and the inverse: writing integers
    separated by single spaces. */
module TextInts {
  import opened Wrappers

  /** The characters Python's str.split() treats as separators: ASCII
      tab to carriage return, the four ASCII separators, space, and the
      Unicode white-space characters. */
  predicate IsSpace(c: char)
  {
    var n := c as int;
    (9 <= n <= 13) || (28 <= n <= 32) || n == 0x85 || n == 0xA0 || n == 0x1680 ||
    (0x2000 <= n <= 0x200A) || n == 0x2028 || n == 0x2029 || n == 0x202F || n == 0x205F || n == 0x3000
  }

  predicate IsDigit(c: char)
  {
    '0' <= c <= '9'
  }

  predicate AllDigits(s: string)
  {
    forall k :: 0 <= k < |s| ==> IsDigit(s[k])
  }

  predicate NoSpace(s: string)
  {
    forall k :: 0 <= k < |s| ==> !IsSpace(s[k])
  }

  /** The longest prefix of `s` that holds no separator. */
  function WordPrefix(s: string): (w: string)
    ensures |w| <= |s| && w == s[..|w|] && NoSpace(w)
    ensures |w| < |s| ==> IsSpace(s[|w|])
  {
    if s == [] || IsSpace(s[0]) then [] else [s[0]] + WordPrefix(s[1..])
  }

  /** str.split() with no argument: the maximal runs of non-separators. */
  function Words(s: string): (ws: seq<string>)
    ensures forall k :: 0 <= k < |ws| ==> ws[k] != [] && NoSpace(ws[k])
    decreases |s|
  {
    if s == [] then []
    else if IsSpace(s[0]) then Words(s[1..])
    else
      var w := WordPrefix(s);
      [w] + Words(s[|w|..])
  }

  function DigitValue(c: char): int
  {
    c as int - '0' as int
  }

  /** The value of a non-empty run of decimal digits. */
  function DigitsValue(ds: string): nat
    requires AllDigits(ds)
  {
    if ds == [] then 0
    else DigitsValue(ds[..|ds| - 1]) * 10 + DigitValue(ds[|ds| - 1])
  }

  /** int(token) on a token without separators, for tokens whose digits
      are ASCII and carry no `_` grouping: an optional sign, then one or
      more decimal digits; any other such token raises ValueError (None). */
  function ParseInt(tok: string): (r: Option<int>)
    ensures r.Some? <==>
      (tok != [] && (tok[0] == '-' || tok[0] == '+') && |tok| > 1 && AllDigits(tok[1..])) ||
      (tok != [] && AllDigits(tok))
  {
    if tok != [] && (tok[0] == '-' || tok[0] == '+') then
      var ds := tok[1..];
      if ds != [] && AllDigits(ds) then
        var v: int := DigitsValue(ds);
        Some(if tok[0] == '-' then -v else v)
      else None
    else if tok != [] && AllDigits(tok) then Some(DigitsValue(tok))
    else None
  }

  function ParseAll(ws: seq<string>): (r: Option<seq<int>>)
    ensures r.Some? ==> |r.value| == |ws|
  {
    if ws == [] then Some([])
    else
      match (ParseInt(ws[0]), ParseAll(ws[1..]))
      case (Some(v), Some(vs)) => Some([v] + vs)
      case _ => None
  }

  /** list(map(int, line.split())), None where int() raises. */
  function ParseInts(line: string): Option<seq<int>>
  {
    ParseAll(Words(line))
  }

  // ---- the inverse direction ----

  function DigitChar(d: int): char
    requires 0 <= d < 10
  {
    ('0' as int + d) as char
  }

  function ShowNat(n: nat): (s: string)
    ensures s != [] && AllDigits(s)
  {
    if n < 10 then [DigitChar(n)] else ShowNat(n / 10) + [DigitChar(n % 10)]
  }

  function ShowInt(n: int): string
  {
    if n < 0 then "-" + ShowNat(-n) else ShowNat(n)
  }

  function ShowAll(xs: seq<int>): (ws: seq<string>)
    ensures |ws| == |xs|
  {
    if xs == [] then [] else [ShowInt(xs[0])] + ShowAll(xs[1..])
  }

  /** Words joined by single spaces, " ".join(ws). */
  function Join(ws: seq<string>): string
  {
    if ws == [] then "" else if |ws| == 1 then ws[0] else ws[0] + " " + Join(ws[1..])
  }

  /** The line that writes `xs` in decimal, separated by single spaces. */
  function FormatInts(xs: seq<int>): string
  {
    Join(ShowAll(xs))
  }

  lemma {:induction false} ShowNatValue(n: nat)
    ensures DigitsValue(ShowNat(n)) == n
  {
    if n >= 10 {
      ShowNatValue(n / 10);
      var s := ShowNat(n);
      assert s[..|s| - 1] == ShowNat(n / 10);
    }
  }

  lemma ShowIntParses(n: int)
    ensures ParseInt(ShowInt(n)) == Some(n)
  {
    if n < 0 {
      var ds := ShowNat(-n);
      ShowNatValue(-n);
      assert ShowInt(n) == "-" + ds;
      assert ("-" + ds)[0] == '-' && ("-" + ds)[1..] == ds;
    } else {
      var ds := ShowNat(n);
      ShowNatValue(n);
      assert IsDigit(ds[0]);
    }
  }

  lemma {:induction false} ShowAllWords(xs: seq<int>)
    ensures forall k :: 0 <= k < |xs| ==> ShowAll(xs)[k] != [] && NoSpace(ShowAll(xs)[k])
  {
    if xs != [] {
      ShowAllWords(xs[1..]);
      assert ShowAll(xs) == [ShowInt(xs[0])] + ShowAll(xs[1..]);
      forall k | 0 <= k < |xs| ensures ShowAll(xs)[k] != [] && NoSpace(ShowAll(xs)[k]) {
        if k == 0 {
          assert ShowInt(xs[0]) != [];
          assert forall j :: 0 <= j < |ShowInt(xs[0])| ==> !IsSpace(ShowInt(xs[0])[j]);
        }
      }
    }
  }

  lemma {:induction false} WordPrefixOf(w: string, rest: string)
    requires NoSpace(w)
    requires rest == [] || IsSpace(rest[0])
    ensures WordPrefix(w + rest) == w
  {
    if w != [] {
      assert (w + rest)[1..] == w[1..] + rest;
      WordPrefixOf(w[1..], rest);
    }
  }

  /** Splitting a space-joined list of separator-free words gives the words back. */
  lemma {:induction false} WordsOfJoin(ws: seq<string>)
    requires forall k :: 0 <= k < |ws| ==> ws[k] != [] && NoSpace(ws[k])
    ensures Words(Join(ws)) == ws
  {
    if |ws| == 1 {
      WordPrefixOf(ws[0], []);
      assert ws[0] + [] == ws[0];
      assert Join(ws)[|ws[0]|..] == [];
    } else if |ws| > 1 {
      var rest := " " + Join(ws[1..]);
      WordPrefixOf(ws[0], rest);
      assert Join(ws) == ws[0] + rest;
      assert Join(ws)[|ws[0]|..] == rest;
      assert rest[1..] == Join(ws[1..]);
      WordsOfJoin(ws[1..]);
    }
  }

  lemma {:induction false} ParseShowAll(xs: seq<int>)
    ensures ParseAll(ShowAll(xs)) == Some(xs)
  {
    if xs != [] {
      ShowIntParses(xs[0]);
      ParseShowAll(xs[1..]);
      var ws := ShowAll(xs);
      assert ws == [ShowInt(xs[0])] + ShowAll(xs[1..]);
      assert ws[0] == ShowInt(xs[0]) && ws[1..] == ShowAll(xs[1..]);
      assert ParseAll(ws) == Some([xs[0]] + xs[1..]);
      assert [xs[0]] + xs[1..] == xs;
    }
  }

  /** Reading back a written line gives the integers that were written. */
  lemma ParseFormat(xs: seq<int>)
    ensures ParseInts(FormatInts(xs)) == Some(xs)
  {
    ShowAllWords(xs);
    WordsOfJoin(ShowAll(xs));
    ParseShowAll(xs);
  }
}
