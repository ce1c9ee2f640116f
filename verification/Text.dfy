/** The string operations of the source: trimming, case folding, splitting, decimal
    rendering, and the NUL-joined keys of the in-memory stores. */
module Text {

  // ----- White space -------------------------------------------------------------------

  /** The characters `unicode.IsSpace` accepts within Latin-1. */
  predicate IsSpace(c: char) {
    c == ' ' || '\t' <= c <= '\r' || c == '\U{85}' || c == '\U{A0}'
  }

  function TrimLeft(s: string): string {
    if s != "" && IsSpace(s[0]) then TrimLeft(s[1..]) else s
  }

  function TrimRight(s: string): string {
    if s != "" && IsSpace(s[|s| - 1]) then TrimRight(s[..|s| - 1]) else s
  }

  function Trim(s: string): string {
    TrimRight(TrimLeft(s))
  }

  predicate IsBlank(s: string) {
    Trim(s) == ""
  }

  predicate IsTrimmed(s: string) {
    s == "" || (!IsSpace(s[0]) && !IsSpace(s[|s| - 1]))
  }

  lemma {:induction false} TrimLeftStart(s: string)
    ensures var r := TrimLeft(s); r == "" || !IsSpace(r[0])
  {
    if s != "" && IsSpace(s[0]) {
      TrimLeftStart(s[1..]);
    }
  }

  lemma {:induction false} TrimRightEnds(s: string)
    ensures var r := TrimRight(s);
      && (r == "" || !IsSpace(r[|r| - 1]))
      && (r == "" || r[0] == s[0])
      && |r| <= |s|
  {
    if s != "" && IsSpace(s[|s| - 1]) {
      TrimRightEnds(s[..|s| - 1]);
    }
  }

  /** Trimming leaves nothing to trim. */
  lemma TrimIsTrimmed(s: string)
    ensures IsTrimmed(Trim(s))
  {
    TrimLeftStart(s);
    TrimRightEnds(TrimLeft(s));
  }

  lemma TrimOfTrimmed(s: string)
    requires IsTrimmed(s)
    ensures Trim(s) == s
  {
  }

  /** White space by code point: tab, the four line separators, blank, next line, no-break space. */
  predicate White(c: char) {
    c as int in {0x09, 0x0A, 0x0B, 0x0C, 0x0D, 0x20, 0x85, 0xA0}
  }

  predicate AllWhite(s: string) {
    forall i | 0 <= i < |s| :: White(s[i])
  }

  predicate Visible(s: string) {
    exists i | 0 <= i < |s| :: !White(s[i])
  }

  /** A text that neither begins nor ends with white space. */
  predicate Bare(s: string) {
    s == "" || (!White(s[0]) && !White(s[|s| - 1]))
  }

  lemma {:induction false} TrimLeftOf(a: string, t: string)
    requires AllWhite(a) && (t == "" || !White(t[0]))
    ensures TrimLeft(a + t) == t
  {
    if a != "" {
      assert (a + t)[0] == a[0] && (a + t)[1..] == a[1..] + t;
      TrimLeftOf(a[1..], t);
    } else {
      assert a + t == t;
    }
  }

  lemma {:induction false} TrimRightOf(t: string, b: string)
    requires AllWhite(b) && (t == "" || !White(t[|t| - 1]))
    ensures TrimRight(t + b) == t
  {
    if b != "" {
      var n := |b| - 1;
      assert (t + b)[|t + b| - 1] == b[n] && (t + b)[..|t + b| - 1] == t + b[..n];
      TrimRightOf(t, b[..n]);
    } else {
      assert t + b == t;
    }
  }

  /** Trimming takes away the white space around a text and nothing else. */
  lemma TrimOf(a: string, t: string, b: string)
    requires AllWhite(a) && Bare(t) && AllWhite(b)
    ensures Trim(a + t + b) == t
  {
    if t == "" {
      assert AllWhite(a + b) && a + t + b == (a + b) + "";
      TrimLeftOf(a + b, "");
    } else {
      assert (t + b)[0] == t[0] && a + t + b == a + (t + b);
      TrimLeftOf(a, t + b);
      TrimRightOf(t, b);
    }
  }

  lemma {:induction false} LeadingWhite(s: string) returns (a: string, t: string)
    ensures s == a + t && AllWhite(a) && (t == "" || !White(t[0]))
  {
    if s != "" && White(s[0]) {
      a, t := LeadingWhite(s[1..]);
      a := [s[0]] + a;
    } else {
      a, t := "", s;
    }
  }

  lemma {:induction false} TrailingWhite(s: string) returns (t: string, b: string)
    ensures s == t + b && AllWhite(b) && (t == "" || !White(t[|t| - 1]))
  {
    if s != "" && White(s[|s| - 1]) {
      t, b := TrailingWhite(s[..|s| - 1]);
      b := b + [s[|s| - 1]];
    } else {
      t, b := s, "";
    }
  }

  /** Every text is its trimmed form between white space. */
  lemma TrimParts(s: string) returns (a: string, b: string)
    ensures s == a + Trim(s) + b && AllWhite(a) && AllWhite(b) && Bare(Trim(s))
  {
    var rest, t;
    a, rest := LeadingWhite(s);
    t, b := TrailingWhite(rest);
    assert t == "" || t[0] == rest[0];
    assert s == a + t + b;
    TrimOf(a, t, b);
  }

  /** Blank means: no character but white space. */
  lemma BlankIffWhite(s: string)
    ensures IsBlank(s) <==> AllWhite(s)
  {
    var a, b := TrimParts(s);
    if IsBlank(s) {
      assert s == a + b;
    } else {
      var t := Trim(s);
      assert s[|a|] == t[0];
    }
  }

  // ----- Comparison --------------------------------------------------------------------

  function FoldChar(c: char): char {
    if 'A' <= c <= 'Z' then (c as int + 32) as char else c
  }

  /** `strings.EqualFold` on ASCII letters. */
  predicate EqualFold(a: string, b: string) {
    |a| == |b| && forall i :: 0 <= i < |a| ==> FoldChar(a[i]) == FoldChar(b[i])
  }

  predicate OccursAt(s: string, sub: string, i: nat) {
    i + |sub| <= |s| && s[i..i + |sub|] == sub
  }

  predicate Contains(s: string, sub: string) {
    exists i | 0 <= i <= |s| :: OccursAt(s, sub, i)
  }

  /** The same character, or the two cases of one ASCII letter. */
  predicate SameLetter(c: char, d: char) {
    || c == d
    || ('A' <= c <= 'Z' && d as int - c as int == 32)
    || ('A' <= d <= 'Z' && c as int - d as int == 32)
  }

  /** Folding tells apart what differs in more than the case of a letter. */
  lemma EqualFoldIff(a: string, b: string)
    ensures EqualFold(a, b) <==> |a| == |b| && forall i :: 0 <= i < |a| ==> SameLetter(a[i], b[i])
  {
    forall c, d ensures FoldChar(c) == FoldChar(d) <==> SameLetter(c, d) {
    }
    if EqualFold(a, b) {
      forall i | 0 <= i < |a| ensures SameLetter(a[i], b[i]) {
        assert FoldChar(a[i]) == FoldChar(b[i]);
      }
    }
  }

  /** A text contains another that stands somewhere within it. */
  lemma ContainsIff(s: string, sub: string)
    ensures Contains(s, sub) <==> exists a: string, b: string :: s == a + sub + b
  {
    if Contains(s, sub) {
      var i :| 0 <= i <= |s| && OccursAt(s, sub, i);
      assert s == s[..i] + sub + s[i + |sub|..];
    }
    if a: string, b: string :| s == a + sub + b {
      assert OccursAt(s, sub, |a|);
    }
  }

  // ----- Splitting ---------------------------------------------------------------------

  /** `strings.Split` by one character: the pieces between separators, at least one. */
  function Split(s: string, sep: char): (parts: seq<string>)
    ensures |parts| >= 1
  {
    if s == "" then [""]
    else if s[0] == sep then [""] + Split(s[1..], sep)
    else
      var rest := Split(s[1..], sep);
      [[s[0]] + rest[0]] + rest[1..]
  }

  function Join(parts: seq<string>, sep: char): string
    requires |parts| >= 1
  {
    if |parts| == 1 then parts[0] else parts[0] + [sep] + Join(parts[1..], sep)
  }

  predicate Free(s: string, c: char) {
    c !in s
  }

  lemma {:induction false} SplitFree(s: string, sep: char)
    requires Free(s, sep)
    ensures Split(s, sep) == [s]
  {
    if s != "" {
      SplitFree(s[1..], sep);
      assert [s[0]] + s[1..] == s;
    }
  }

  lemma {:induction false} SplitAtFirst(a: string, sep: char, b: string)
    requires Free(a, sep)
    ensures Split(a + [sep] + b, sep) == [a] + Split(b, sep)
  {
    var s := a + [sep] + b;
    if a == "" {
      assert s[1..] == b;
    } else {
      SplitAtFirst(a[1..], sep, b);
      assert s[1..] == a[1..] + [sep] + b;
      assert [a[0]] + a[1..] == a;
    }
  }

  /** Splitting undoes joining when no piece contains the separator. */
  lemma {:induction false} SplitJoin(parts: seq<string>, sep: char)
    requires |parts| >= 1
    requires forall p :: p in parts ==> Free(p, sep)
    ensures Split(Join(parts, sep), sep) == parts
  {
    if |parts| == 1 {
      SplitFree(parts[0], sep);
    } else {
      assert forall p :: p in parts[1..] ==> p in parts;
      SplitJoin(parts[1..], sep);
      SplitAtFirst(parts[0], sep, Join(parts[1..], sep));
    }
  }

  /** The pieces of a split hold no separator, and joining them gives the text back. */
  lemma {:induction false} JoinSplit(s: string, sep: char)
    ensures Join(Split(s, sep), sep) == s
    ensures forall p :: p in Split(s, sep) ==> Free(p, sep)
  {
    if s != "" {
      JoinSplit(s[1..], sep);
      var rest := Split(s[1..], sep);
      assert s == [s[0]] + s[1..];
      assert forall p :: p in rest ==> Free(p, sep);
      if s[0] == sep {
        assert Split(s, sep)[1..] == rest;
      } else {
        assert Split(s, sep)[1..] == rest[1..];
        assert rest[0] in rest;
      }
    }
  }

  lemma {:induction false} JoinFree(parts: seq<string>, sep: char, c: char)
    requires |parts| >= 1 && c != sep
    requires forall p :: p in parts ==> Free(p, c)
    ensures Free(Join(parts, sep), c)
  {
    assert parts[0] in parts;
    if |parts| > 1 {
      assert forall p :: p in parts[1..] ==> p in parts;
      JoinFree(parts[1..], sep, c);
    }
  }

  /** A join of trimmed, non-empty pieces is itself trimmed. */
  lemma {:induction false} JoinTrimmed(parts: seq<string>, sep: char)
    requires |parts| >= 1
    requires forall p :: p in parts ==> p != "" && IsTrimmed(p)
    ensures var r := Join(parts, sep); r != "" && IsTrimmed(r)
  {
    assert parts[0] in parts;
    if |parts| > 1 {
      assert forall p :: p in parts[1..] ==> p in parts;
      JoinTrimmed(parts[1..], sep);
    }
  }

  // ----- Trimming and splitting --------------------------------------------------------

  lemma {:induction false} TrimLeftStops(a: string, c: char, b: string)
    requires !IsSpace(c)
    ensures TrimLeft(a + [c] + b) == TrimLeft(a) + [c] + b
  {
    var s := a + [c] + b;
    if a != "" && IsSpace(a[0]) {
      assert s[0] == a[0] && s[1..] == a[1..] + [c] + b;
      TrimLeftStops(a[1..], c, b);
    } else {
      assert s[0] == if a == "" then c else a[0];
    }
  }

  lemma {:induction false} TrimRightStops(a: string, c: char, b: string)
    requires !IsSpace(c)
    ensures TrimRight(a + [c] + b) == a + [c] + TrimRight(b)
  {
    var s := a + [c] + b;
    var n := |b| - 1;
    if b != "" && IsSpace(b[n]) {
      assert s[|s| - 1] == b[n] && s[..|s| - 1] == a + [c] + b[..n];
      TrimRightStops(a, c, b[..n]);
    } else {
      assert s[|s| - 1] == if b == "" then c else b[n];
    }
  }

  lemma {:induction false} TrimLeftPart(s: string) returns (a: string)
    ensures s == a + TrimLeft(s) && AllWhite(a)
  {
    if s != "" && IsSpace(s[0]) {
      var rest := TrimLeftPart(s[1..]);
      a := [s[0]] + rest;
    } else {
      a := "";
    }
  }

  lemma {:induction false} TrimRightPart(s: string) returns (b: string)
    ensures s == TrimRight(s) + b && AllWhite(b)
  {
    if s != "" && IsSpace(s[|s| - 1]) {
      var rest := TrimRightPart(s[..|s| - 1]);
      b := rest + [s[|s| - 1]];
    } else {
      b := "";
    }
  }

  /** White space around a text makes no difference to trimming. */
  lemma TrimIgnoresWhite(a: string, s: string, b: string)
    requires AllWhite(a) && AllWhite(b)
    ensures Trim(a + s + b) == Trim(s)
  {
    var c, d := TrimParts(s);
    assert a + s + b == (a + c) + Trim(s) + (d + b);
    TrimOf(a + c, Trim(s), d + b);
  }

  lemma TrimOfTrimLeft(s: string)
    ensures Trim(TrimLeft(s)) == Trim(s)
  {
    var a := TrimLeftPart(s);
    var t := TrimLeft(s);
    assert s == a + t + "";
    TrimIgnoresWhite(a, t, "");
  }

  lemma TrimOfTrimRight(s: string)
    ensures Trim(TrimRight(s)) == Trim(s)
  {
    var b := TrimRightPart(s);
    var t := TrimRight(s);
    assert s == "" + t + b;
    TrimIgnoresWhite("", t, b);
  }

  lemma TrimmedHalvesFree(s: string, c: char)
    requires Free(s, c)
    ensures Free(TrimLeft(s), c) && Free(TrimRight(s), c)
  {
    var a := TrimLeftPart(s);
    var b := TrimRightPart(s);
  }

  lemma {:induction false} TrimRightOfJoin(parts: seq<string>, sep: char)
    requires |parts| >= 2 && !IsSpace(sep)
    ensures TrimRight(Join(parts, sep)) == Join(parts[|parts| - 1 := TrimRight(parts[|parts| - 1])], sep)
  {
    var n := |parts| - 1;
    var rest := parts[1..];
    TrimRightStops(parts[0], sep, Join(rest, sep));
    var after := parts[n := TrimRight(parts[n])];
    assert after[1..] == rest[n - 1 := TrimRight(rest[n - 1])];
    if n > 1 {
      TrimRightOfJoin(rest, sep);
    }
  }

  /** The pieces, trimmed at the two ends of the whole. */
  function TrimmedEnds(parts: seq<string>): seq<string>
    requires |parts| >= 2
  {
    seq(|parts|, i requires 0 <= i < |parts| =>
      if i == 0 then TrimLeft(parts[i]) else if i == |parts| - 1 then TrimRight(parts[i]) else parts[i])
  }

  lemma TrimOfJoin(parts: seq<string>, sep: char)
    requires |parts| >= 2 && !IsSpace(sep)
    ensures Trim(Join(parts, sep)) == Join(TrimmedEnds(parts), sep)
  {
    var n := |parts| - 1;
    var left := parts[0 := TrimLeft(parts[0])];
    TrimLeftStops(parts[0], sep, Join(parts[1..], sep));
    assert left[1..] == parts[1..];
    assert Join(left, sep) == TrimLeft(Join(parts, sep));
    TrimRightOfJoin(left, sep);
    assert left[n := TrimRight(left[n])] == TrimmedEnds(parts);
  }

  lemma TrimmedEnd(parts: seq<string>, sep: char, i: nat)
    requires |parts| >= 2 && i < |parts| && Free(parts[i], sep)
    ensures Free(TrimmedEnds(parts)[i], sep) && Trim(TrimmedEnds(parts)[i]) == Trim(parts[i])
  {
    TrimmedHalvesFree(parts[i], sep);
    TrimOfTrimLeft(parts[i]);
    TrimOfTrimRight(parts[i]);
  }

  /** Splitting a joined text after trimming it gives the pieces back, up to white space around each. */
  lemma PiecesUpToSpace(parts: seq<string>, sep: char)
    requires |parts| >= 1 && !IsSpace(sep) && forall p :: p in parts ==> Free(p, sep)
    ensures var found := Split(Trim(Join(parts, sep)), sep);
      |found| == |parts| && forall i | 0 <= i < |parts| :: Trim(found[i]) == Trim(parts[i])
  {
    if |parts| == 1 {
      var p := parts[0];
      assert p in parts;
      TrimmedHalvesFree(p, sep);
      TrimmedHalvesFree(TrimLeft(p), sep);
      SplitFree(Trim(p), sep);
      TrimIsTrimmed(p);
      TrimOfTrimmed(Trim(p));
    } else {
      var ends := TrimmedEnds(parts);
      TrimOfJoin(parts, sep);
      forall i | 0 <= i < |parts| ensures Free(ends[i], sep) && Trim(ends[i]) == Trim(parts[i]) {
        assert parts[i] in parts;
        TrimmedEnd(parts, sep, i);
      }
      SplitJoin(ends, sep);
    }
  }

  // ----- Decimal numbers ---------------------------------------------------------------

  function Digit(d: nat): char
    requires d < 10
  {
    ('0' as int + d) as char
  }

  /** The `%d` rendering of a counter value. */
  function Decimal(n: nat): (s: string)
    ensures s != ""
  {
    if n < 10 then [Digit(n)] else Decimal(n / 10) + [Digit(n % 10)]
  }

  lemma {:induction false} DecimalInjective(a: nat, b: nat)
    ensures Decimal(a) == Decimal(b) <==> a == b
  {
    if Decimal(a) == Decimal(b) {
      var s, t := Decimal(a), Decimal(b);
      if a < 10 && b < 10 {
        assert s[0] == t[0];
      } else if a >= 10 && b >= 10 {
        assert s[|s| - 1] == t[|t| - 1];
        assert s[..|s| - 1] == Decimal(a / 10) && t[..|t| - 1] == Decimal(b / 10);
        DecimalInjective(a / 10, b / 10);
      }
    }
  }

  /** The number a row of digits stands for. */
  function Value(s: string): int {
    if s == "" then 0 else 10 * Value(s[..|s| - 1]) + (s[|s| - 1] as int - '0' as int)
  }

  /** The rendering is made of digits, has no leading zero, and stands for the number. */
  lemma {:induction false} DecimalIsDecimal(n: nat)
    ensures var s := Decimal(n);
      && (forall i | 0 <= i < |s| :: '0' <= s[i] <= '9')
      && (s[0] == '0' ==> n == 0 && |s| == 1)
      && Value(s) == n
  {
    if n >= 10 {
      DecimalIsDecimal(n / 10);
      assert Decimal(n)[..|Decimal(n)| - 1] == Decimal(n / 10);
    } else {
      assert Decimal(n)[..0] == "";
    }
  }

  lemma {:induction false} DecimalFree(n: nat, c: char)
    requires !('0' <= c <= '9')
    ensures Free(Decimal(n), c)
  {
    if n >= 10 {
      DecimalFree(n / 10, c);
    }
  }

  // ----- Store keys --------------------------------------------------------------------

  const NUL: char := '\0'

  predicate NulFree(s: string) {
    Free(s, NUL)
  }

  /** The flat map key of the approval and policy-pack stores. */
  function Key(tenant: string, id: string): string {
    tenant + [NUL] + id
  }

  /** `short` is the tenant of one pair; the other pair moves part of the identifier into the tenant. */
  predicate Extends(tenant: string, id: string, short: string, long: string) {
    && |tenant| > |short|
    && tenant == Key(short, tenant[|short| + 1..])
    && long == Key(tenant[|short| + 1..], id)
  }

  lemma KeyCollisionLonger(t1: string, i1: string, t2: string, i2: string)
    requires |t1| >= |t2|
    ensures Key(t1, i1) == Key(t2, i2) <==> ((t1 == t2 && i1 == i2) || (|t1| > |t2| && Extends(t1, i1, t2, i2)))
  {
    var k1, k2 := Key(t1, i1), Key(t2, i2);
    if k1 == k2 {
      assert t2 == k2[..|t2|] == k1[..|t2|] == t1[..|t2|];
      assert i1 == k1[|t1| + 1..] && i2 == k2[|t2| + 1..];
      if |t1| == |t2| {
        assert t1 == t2;
      } else {
        assert t1[|t2|] == k1[|t2|] == k2[|t2|] == NUL;
        var w := t1[|t2| + 1..];
        assert t1 == Key(t2, w);
        assert k1[|t2| + 1..] == Key(w, i1);
      }
    }
  }

  /** Exactly when two (tenant, identifier) pairs share a key: when they are equal, or when one
      tenant is the other followed by NUL and the moved text is the head of the other identifier. */
  lemma KeyCollision(t1: string, i1: string, t2: string, i2: string)
    ensures Key(t1, i1) == Key(t2, i2) <==>
      ((t1 == t2 && i1 == i2) || Extends(t1, i1, t2, i2) || Extends(t2, i2, t1, i1))
  {
    if |t1| >= |t2| {
      KeyCollisionLonger(t1, i1, t2, i2);
    } else {
      KeyCollisionLonger(t2, i2, t1, i1);
    }
  }

  /** Keys of NUL-free tenants are unambiguous, whatever the identifiers contain. */
  lemma KeyInjectiveTenants(t1: string, i1: string, t2: string, i2: string)
    requires NulFree(t1) && NulFree(t2)
    ensures Key(t1, i1) == Key(t2, i2) <==> (t1 == t2 && i1 == i2)
  {
    KeyCollision(t1, i1, t2, i2);
  }

  /** Keys of NUL-free identifiers are unambiguous, whatever the tenants contain. */
  lemma KeyInjectiveIds(t1: string, i1: string, t2: string, i2: string)
    requires NulFree(i1) && NulFree(i2)
    ensures Key(t1, i1) == Key(t2, i2) <==> (t1 == t2 && i1 == i2)
  {
    KeyCollision(t1, i1, t2, i2);
  }

  /** Without NUL-freedom two tenants can share a key. */
  lemma KeyAmbiguousExample()
    ensures Key("a", ['b', NUL, 'c']) == Key(['a', NUL, 'b'], "c")
  {
    assert Key("a", ['b', NUL, 'c']) == ['a', NUL, 'b', NUL, 'c'];
    assert Key(['a', NUL, 'b'], "c") == ['a', NUL, 'b', NUL, 'c'];
  }
}
