/**
 * The Go string helpers the session tool relies on (strings.TrimSpace,
 * strings.Fields, strings.Join, strings.ToLower, bytes.TrimRight,
 * unicode.IsControl, decimal formatting and byte-wise string order).
 *
 * A Go string is a sequence of bytes and `len`/slicing count bytes.  The model
 * writes strings as `seq<char>` and reads every `char` as one byte; whitespace
 * and case are the ASCII classes.
 */
module Text {

  /** The ASCII white space of Go's unicode.IsSpace. */
  predicate IsSpace(c: char) {
    c == ' ' || c == '\t' || c == '\n' || c == '\r' || c == '\U{000B}' || c == '\U{000C}'
  }

  /** Every byte of `s` is white space (this includes the empty string). */
  predicate Blank(s: string) {
    forall i :: 0 <= i < |s| ==> IsSpace(s[i])
  }

  /** `s` has no white space at all. */
  predicate Solid(s: string) {
    forall i :: 0 <= i < |s| ==> !IsSpace(s[i])
  }

  /**
   * The shape of whitespace-collapsed text: it neither starts nor ends with
   * white space, and its only white space is single ' ' characters between two
   * other characters (so never two spaces in a row).
   */
  predicate Collapsed(s: string) {
    forall i :: 0 <= i < |s| && IsSpace(s[i]) ==>
      s[i] == ' ' && 0 < i < |s| - 1 && !IsSpace(s[i + 1])
  }

  /** The non-white-space bytes of `s`, in order. */
  function NonSpace(s: string): string {
    if s == [] then []
    else if IsSpace(s[0]) then NonSpace(s[1..])
    else [s[0]] + NonSpace(s[1..])
  }

  function TrimLeft(s: string): (r: string)
    ensures |r| <= |s| && r == s[|s| - |r|..]
    ensures r == [] || !IsSpace(r[0])
    ensures Blank(s[..|s| - |r|])
  {
    if s != [] && IsSpace(s[0]) then TrimLeft(s[1..]) else s
  }

  function TrimRight(s: string): (r: string)
    ensures |r| <= |s| && r == s[..|r|]
    ensures r == [] || !IsSpace(r[|r| - 1])
    ensures Blank(s[|r|..])
  {
    if s != [] && IsSpace(s[|s| - 1]) then TrimRight(s[..|s| - 1]) else s
  }

  /** strings.TrimSpace: `s` without its leading and trailing white space. */
  function TrimSpace(s: string): (r: string)
    ensures r == [] <==> Blank(s)
    ensures r == [] || (!IsSpace(r[0]) && !IsSpace(r[|r| - 1]))
  {
    var t := TrimLeft(s);
    TrimBoth(s);
    TrimRight(t)
  }

  /** Trimming both ends leaves nothing exactly when the text is blank. */
  lemma TrimBoth(s: string)
    ensures var r := TrimRight(TrimLeft(s));
      (r == [] <==> Blank(s)) && (r == [] || (!IsSpace(r[0]) && !IsSpace(r[|r| - 1])))
  {
    var t := TrimLeft(s);
    var r := TrimRight(t);
    if r == [] {
      var k := |s| - |t|;
      assert t[|r|..] == t == s[k..];
      BlankSplit(s, k);
    } else {
      assert r[0] == t[0] == s[|s| - |t|];
      assert !Blank(s);
    }
  }

  lemma BlankSplit(s: string, k: nat)
    requires k <= |s|
    ensures Blank(s) <==> Blank(s[..k]) && Blank(s[k..])
  {
    if Blank(s[..k]) && Blank(s[k..]) {
      forall i | 0 <= i < |s| ensures IsSpace(s[i]) {
        if i < k {
          assert s[i] == s[..k][i];
        } else {
          assert s[i] == s[k..][i - k];
        }
      }
    }
  }

  /** Length of the leading run of non-space bytes of `t`. */
  function WordLen(t: string): (n: nat)
    ensures n <= |t| && Solid(t[..n])
    ensures n < |t| ==> IsSpace(t[n])
  {
    if t == [] || IsSpace(t[0]) then 0 else 1 + WordLen(t[1..])
  }

  /** strings.Fields: the maximal runs of non-space bytes of `s`, in order. */
  function Fields(s: string): seq<string>
    decreases |s|
  {
    var t := TrimLeft(s);
    if t == [] then []
    else
      var n := WordLen(t);
      assert n > 0 by { assert !IsSpace(t[0]); }
      [t[..n]] + Fields(t[n..])
  }

  /** Every field is a non-empty run of non-space bytes. */
  lemma {:induction false} FieldsAreWords(s: string)
    ensures forall i :: 0 <= i < |Fields(s)| ==> Fields(s)[i] != [] && Solid(Fields(s)[i])
    decreases |s|
  {
    var t := TrimLeft(s);
    if t != [] {
      var n := WordLen(t);
      assert n > 0 by { assert !IsSpace(t[0]); }
      var w, rest := t[..n], Fields(t[n..]);
      FieldsAreWords(t[n..]);
      assert Fields(s) == [w] + rest;
      forall i | 0 <= i < |Fields(s)| ensures Fields(s)[i] != [] && Solid(Fields(s)[i]) {
        if i > 0 {
          assert Fields(s)[i] == rest[i - 1];
        }
      }
    }
  }

  /** strings.Join. */
  function Join(xs: seq<string>, sep: string): string {
    if xs == [] then []
    else if |xs| == 1 then xs[0]
    else xs[0] + sep + Join(xs[1..], sep)
  }

  /** Joining one more element appends the separator and that element. */
  lemma {:induction false} JoinSnoc(xs: seq<string>, y: string, sep: string)
    requires xs != []
    ensures Join(xs + [y], sep) == Join(xs, sep) + sep + y
  {
    if |xs| == 1 {
      assert (xs + [y])[1..] == [y];
    } else {
      JoinSnoc(xs[1..], y, sep);
      assert (xs + [y])[1..] == xs[1..] + [y];
    }
  }

  /** strings.Join(strings.Fields(s), " "): white-space runs collapsed to one space. */
  function Collapse(s: string): string {
    Join(Fields(s), " ")
  }

  function Concat(xs: seq<string>): string {
    if xs == [] then [] else xs[0] + Concat(xs[1..])
  }

  lemma NonSpaceAppend(a: string, b: string)
    ensures NonSpace(a + b) == NonSpace(a) + NonSpace(b)
  {
    if a == [] {
      assert a + b == b;
    } else {
      assert (a + b)[0] == a[0];
      assert (a + b)[1..] == a[1..] + b;
      NonSpaceAppend(a[1..], b);
    }
  }

  lemma NonSpaceOfBlank(s: string)
    requires Blank(s)
    ensures NonSpace(s) == []
  {
    if s != [] {
      NonSpaceOfBlank(s[1..]);
    }
  }

  lemma NonSpaceOfSolid(s: string)
    requires Solid(s)
    ensures NonSpace(s) == s
  {
    if s != [] {
      NonSpaceOfSolid(s[1..]);
    }
  }

  lemma SplitAt(s: string, n: nat)
    requires n <= |s|
    ensures s[..n] + s[n..] == s
  {
  }

  lemma NonSpaceOfTrimLeft(s: string)
    ensures NonSpace(TrimLeft(s)) == NonSpace(s)
  {
    var t := TrimLeft(s);
    SplitAt(s, |s| - |t|);
    NonSpaceAppend(s[..|s| - |t|], t);
    NonSpaceOfBlank(s[..|s| - |t|]);
  }

  lemma SliceAppend(t: string, b: string, n: nat)
    requires n <= |t|
    ensures (t + b)[..n] == t[..n] && (t + b)[n..] == t[n..] + b
  {
  }

  /** The fields of `s`, glued together, are exactly its non-space bytes. */
  lemma {:induction false} FieldsCoverNonSpace(s: string)
    ensures Concat(Fields(s)) == NonSpace(s)
    decreases |s|
  {
    var t := TrimLeft(s);
    NonSpaceOfTrimLeft(s);
    if t == [] {
    } else {
      var n := WordLen(t);
      var w, u := t[..n], t[n..];
      var rest := Fields(u);
      FieldsCoverNonSpace(u);
      assert Fields(s) == [w] + rest;
      assert ([w] + rest)[1..] == rest;
      assert Concat([w] + rest) == w + Concat(rest);
      SplitAt(t, n);
      NonSpaceAppend(w, u);
      NonSpaceOfSolid(w);
    }
  }

  lemma {:induction false} JoinWordsNonSpace(ws: seq<string>)
    requires forall i :: 0 <= i < |ws| ==> Solid(ws[i])
    ensures NonSpace(Join(ws, " ")) == Concat(ws)
  {
    if |ws| == 0 {
    } else if |ws| == 1 {
      NonSpaceOfSolid(ws[0]);
      assert Concat(ws) == ws[0] + Concat([]);
    } else {
      JoinWordsNonSpace(ws[1..]);
      NonSpaceAppend(ws[0] + " ", Join(ws[1..], " "));
      NonSpaceAppend(ws[0], " ");
      NonSpaceOfSolid(ws[0]);
      assert NonSpace(" ") == NonSpace(" "[1..]);
    }
  }

  lemma {:induction false} JoinWordsCollapsed(ws: seq<string>)
    requires forall i :: 0 <= i < |ws| ==> ws[i] != [] && Solid(ws[i])
    ensures Collapsed(Join(ws, " "))
    ensures ws != [] ==> Join(ws, " ") != [] && Join(ws, " ")[0] == ws[0][0]
  {
    if |ws| > 1 {
      JoinWordsCollapsed(ws[1..]);
      var w, rest := ws[0], Join(ws[1..], " ");
      var j := w + " " + rest;
      assert forall i :: 0 <= i < |w| ==> j[i] == w[i];
      forall i | 0 <= i < |j| && IsSpace(j[i])
        ensures j[i] == ' ' && 0 < i < |j| - 1 && !IsSpace(j[i + 1])
      {
        if i != |w| {
          assert i > |w|;
          assert j[i] == rest[i - |w| - 1];
          assert i + 1 < |j| ==> j[i + 1] == rest[i - |w|];
        } else {
          assert j[i + 1] == rest[0];
        }
      }
    }
  }

  /** Collapsing removes no visible byte and leaves the collapsed shape. */
  lemma CollapseShape(s: string)
    ensures Collapsed(Collapse(s))
    ensures NonSpace(Collapse(s)) == NonSpace(s)
    ensures Collapse(s) == [] <==> Blank(s)
  {
    FieldsAreWords(s);
    JoinWordsCollapsed(Fields(s));
    JoinWordsNonSpace(Fields(s));
    FieldsCoverNonSpace(s);
    if Blank(s) {
      NonSpaceOfBlank(s);
    }
    if Collapse(s) == [] {
      BlankOfNoNonSpace(s);
    }
  }

  lemma BlankOfNoNonSpace(s: string)
    requires NonSpace(s) == []
    ensures Blank(s)
  {
    if s != [] {
      BlankOfNoNonSpace(s[1..]);
    }
  }

  lemma TrimLeftOfBlank(s: string)
    requires Blank(s)
    ensures TrimLeft(s) == []
  {
    if s != [] {
      TrimLeftOfBlank(s[1..]);
    }
  }

  lemma {:induction false} TrimLeftAppend(a: string, b: string)
    requires TrimLeft(a) != []
    ensures TrimLeft(a + b) == TrimLeft(a) + b
  {
    assert a != [] && (a + b)[0] == a[0];
    if IsSpace(a[0]) {
      assert (a + b)[1..] == a[1..] + b;
      assert TrimLeft(a) == TrimLeft(a[1..]);
      TrimLeftAppend(a[1..], b);
    }
  }

  lemma {:induction false} WordLenAppend(t: string, b: string)
    requires WordLen(t) < |t| || b == [] || IsSpace(b[0])
    ensures WordLen(t + b) == WordLen(t)
  {
    if t == [] {
      assert t + b == b;
    } else {
      assert (t + b)[0] == t[0];
      if !IsSpace(t[0]) {
        assert (t + b)[1..] == t[1..] + b;
        assert WordLen(t) == 1 + WordLen(t[1..]);
        assert WordLen(t + b) == 1 + WordLen(t[1..] + b);
        WordLenAppend(t[1..], b);
      }
    }
  }

  lemma BlankAppend(a: string, b: string)
    requires Blank(a) && Blank(b)
    ensures Blank(a + b)
  {
    assert forall i :: 0 <= i < |a + b| ==> (a + b)[i] == if i < |a| then a[i] else b[i - |a|];
  }

  /** Appending white space does not change the fields of a string. */
  lemma {:induction false} FieldsOfPadded(a: string, b: string)
    requires Blank(b)
    ensures Fields(a + b) == Fields(a)
    decreases |a|
  {
    var t := TrimLeft(a);
    if t == [] {
      assert a == a[..|a| - |t|];
      BlankAppend(a, b);
      TrimLeftOfBlank(a + b);
    } else {
      TrimLeftAppend(a, b);
      var n := WordLen(t);
      assert n > 0 by { assert !IsSpace(t[0]); }
      WordLenAppend(t, b);
      SliceAppend(t, b, n);
      FieldsOfPadded(t[n..], b);
      calc {
        Fields(a + b);
        [(t + b)[..n]] + Fields((t + b)[n..]);
        [t[..n]] + Fields(t[n..] + b);
        [t[..n]] + Fields(t[n..]);
        Fields(a);
      }
    }
  }

  /** Trailing white space does not change the fields of a string. */
  lemma FieldsOfTrimRight(s: string)
    ensures Fields(TrimRight(s)) == Fields(s)
  {
    var u := TrimRight(s);
    assert s == u + s[|u|..];
    FieldsOfPadded(u, s[|u|..]);
  }

  /** What compactSnippet collapses is the collapse of its untrimmed input. */
  lemma CollapseOfTrimmed(text: string)
    ensures Collapse(TrimSpace(text)) == Collapse(text)
  {
    var t := TrimLeft(text);
    FieldsOfTrimRight(t);
    assert TrimLeft(t) == t;
    assert Fields(t) == Fields(text);
  }

  lemma CollapsedCut(c: string, k: nat)
    requires Collapsed(c) && 0 < k <= |c|
    ensures Collapsed(c[..k] + "...")
  {
    var r := c[..k] + "...";
    forall i | 0 <= i < |r| && IsSpace(r[i])
      ensures r[i] == ' ' && 0 < i < |r| - 1 && !IsSpace(r[i + 1])
    {
      assert i < k;
      assert r[i] == c[i];
      if i + 1 < k {
        assert r[i + 1] == c[i + 1];
      } else {
        assert r[i + 1] == '.';
      }
    }
  }

  /** compactSnippet's length limit, in bytes. */
  const SnippetLimit: nat := 160

  /**
   * compactSnippet: trim, collapse white-space runs to one space and cap the
   * result at SnippetLimit bytes, the last three of a cut text being "...".
   */
  function CompactSnippet(text: string): (r: string)
    ensures r == [] <==> Blank(text)
    ensures |r| <= SnippetLimit
    ensures |Collapse(text)| <= SnippetLimit ==> r == Collapse(text)
    ensures |Collapse(text)| > SnippetLimit ==>
      |r| == SnippetLimit && r == Collapse(text)[..SnippetLimit - 3] + "..."
    ensures Collapsed(r)
  {
    var t := TrimSpace(text);
    if t == [] then []
    else
      var c := Join(Fields(t), " ");
      CollapseOfTrimmed(text);
      CollapseShape(text);
      // the source's bare cut for limits of at most 3 is dead with a limit of 160
      if |c| <= SnippetLimit then c
      else
        CollapsedCut(c, SnippetLimit - 3);
        c[..SnippetLimit - 3] + "..."
  }

  /** bytes.TrimRight(b, "\r\n"): drops every trailing carriage return and line feed. */
  function TrimRightNewline(b: string): (r: string)
    ensures |r| <= |b| && r == b[..|r|]
    ensures r == [] || (r[|r| - 1] != '\r' && r[|r| - 1] != '\n')
    ensures forall i :: |r| <= i < |b| ==> b[i] == '\r' || b[i] == '\n'
  {
    if b != [] && (b[|b| - 1] == '\r' || b[|b| - 1] == '\n') then TrimRightNewline(b[..|b| - 1]) else b
  }

  /** unicode.ToLower on one ASCII byte. */
  function LowerByte(c: char): (r: char)
    ensures !('A' <= r <= 'Z')
    ensures 'A' <= c <= 'Z' ==> r as int == c as int + 32
    ensures !('A' <= c <= 'Z') ==> r == c
  {
    if 'A' <= c <= 'Z' then (c as int + 32) as char else c
  }

  /** strings.ToLower on ASCII letters. */
  function ToLower(s: string): (r: string)
    ensures |r| == |s|
    ensures forall i :: 0 <= i < |s| ==> r[i] == LowerByte(s[i])
  {
    if s == [] then [] else [LowerByte(s[0])] + ToLower(s[1..])
  }

  /** Lower-casing works byte by byte, so it distributes over concatenation. */
  lemma ToLowerAppend(a: string, b: string)
    ensures ToLower(a + b) == ToLower(a) + ToLower(b)
  {
    var l, r := ToLower(a + b), ToLower(a) + ToLower(b);
    assert |l| == |r|;
    forall i | 0 <= i < |l| ensures l[i] == r[i] {
      if i < |a| {
        assert (a + b)[i] == a[i];
      } else {
        assert (a + b)[i] == b[i - |a|];
      }
    }
  }

  /** unicode.IsControl: the code points of category Cc. */
  predicate IsControl(c: char) {
    c as int < 0x20 || 0x7F <= c as int < 0xA0
  }

  function DigitChar(d: nat): (c: char)
    requires d < 10
    ensures '0' <= c <= '9'
  {
    (d + '0' as int) as char
  }

  /** Decimal digits of `n`, as fmt's %d writes them. */
  function NatToString(n: nat): (r: string)
    ensures r != [] && forall i :: 0 <= i < |r| ==> '0' <= r[i] <= '9'
  {
    if n < 10 then [DigitChar(n)] else NatToString(n / 10) + [DigitChar(n % 10)]
  }

  function IntToString(n: int): string {
    if n < 0 then "-" + NatToString(-n) else NatToString(n)
  }

  /** Go's `a <= b` on strings: byte-wise lexicographic order. */
  predicate StrLe(a: string, b: string) {
    a == [] || (b != [] && (a[0] < b[0] || (a[0] == b[0] && StrLe(a[1..], b[1..]))))
  }

  lemma StrLeTotal(a: string, b: string)
    ensures StrLe(a, b) || StrLe(b, a)
  {
  }

  lemma StrLeTransitive(a: string, b: string, c: string)
    requires StrLe(a, b) && StrLe(b, c)
    ensures StrLe(a, c)
  {
  }

  lemma StrLeAntisymmetric(a: string, b: string)
    requires StrLe(a, b) && StrLe(b, a)
    ensures a == b
  {
    if a != [] && b != [] {
      StrLeAntisymmetric(a[1..], b[1..]);
      assert a == [a[0]] + a[1..];
      assert b == [b[0]] + b[1..];
    }
  }
}
