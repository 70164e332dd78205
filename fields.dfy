/** Go's `strings.Fields`: split a string around runs of white space, where
    white space is what `unicode.IsSpace` accepts. */
module TextFields {

  /** `unicode.IsSpace`: the Latin-1 spaces and the Unicode White_Space property. */
  predicate IsSpace(c: char): (b: bool)
    ensures c as int < 0x100 ==>
      (b <==> c == ' ' || c == '\t' || c == '\n' || c == '\r' || c as int in {0x0B, 0x0C, 0x85, 0xA0})
  {
    var n := c as int;
    (0x09 <= n <= 0x0D) || n == 0x20 || n == 0x85 || n == 0xA0 || n == 0x1680 ||
    (0x2000 <= n <= 0x200A) || n == 0x2028 || n == 0x2029 || n == 0x202F ||
    n == 0x205F || n == 0x3000
  }

  predicate NoSpace(w: string)
  {
    forall i :: 0 <= i < |w| ==> !IsSpace(w[i])
  }

  predicate AllSpace(s: string)
  {
    forall i :: 0 <= i < |s| ==> IsSpace(s[i])
  }

  /** A token `strings.Fields` can produce: non-empty and free of white space. */
  predicate IsField(w: string)
  {
    w != [] && NoSpace(w)
  }

  /** The length of the run of non-space characters at the front of `s`. */
  function WordLength(s: string): (n: nat)
    ensures n <= |s|
    ensures NoSpace(s[..n])
    ensures n < |s| ==> IsSpace(s[n])
  {
    if s == [] || IsSpace(s[0]) then 0 else 1 + WordLength(s[1..])
  }

  /** `strings.Fields(s)`. */
  function Fields(s: string): (r: seq<string>)
    ensures forall i :: 0 <= i < |r| ==> IsField(r[i])
    decreases |s|
  {
    if s == [] then []
    else if IsSpace(s[0]) then Fields(s[1..])
    else
      var n := WordLength(s);
      [s[..n]] + Fields(s[n..])
  }

  /** `strings.Join(ws, " ")`: the reference layout of a list of tokens. */
  function JoinSpace(ws: seq<string>): string
  {
    if ws == [] then ""
    else if |ws| == 1 then ws[0]
    else ws[0] + " " + JoinSpace(ws[1..])
  }

  /** A line has no fields exactly when it is all white space. */
  lemma {:induction false} FieldsEmptyIffAllSpace(s: string)
    ensures Fields(s) == [] <==> AllSpace(s)
    decreases |s|
  {
    if s != [] && IsSpace(s[0]) {
      FieldsEmptyIffAllSpace(s[1..]);
      assert AllSpace(s) <==> AllSpace(s[1..]) by {
        assert forall i :: 0 < i < |s| ==> s[i] == s[1..][i - 1];
      }
    }
  }

  /** A single token is its own only field. */
  lemma {:induction false} FieldsOfField(w: string)
    requires IsField(w)
    ensures Fields(w) == [w]
  {
    LengthOfRun(w);
    assert w[..|w|] == w;
    assert w[|w|..] == [];
    assert Fields(w) == [w[..|w|]] + Fields(w[|w|..]);
  }

  /** A run of non-space characters is read in one piece. */
  lemma {:induction false} LengthOfRun(w: string)
    requires NoSpace(w)
    ensures WordLength(w) == |w|
    decreases |w|
  {
    if w != [] {
      assert NoSpace(w[1..]) by {
        assert forall i :: 0 <= i < |w| - 1 ==> w[1..][i] == w[i + 1];
      }
      LengthOfRun(w[1..]);
    }
  }

  /** A word followed by more text: `WordLength` stops where the word does when
      the word is followed by a space. */
  lemma {:induction false} WordLengthPrefix(a: string, b: string)
    requires WordLength(a) < |a|
    ensures WordLength(a + b) == WordLength(a)
    decreases |a|
  {
    if !IsSpace(a[0]) {
      assert (a + b)[1..] == a[1..] + b;
      WordLengthPrefix(a[1..], b);
    }
  }

  /** All of `a` is one word, and `b` starts with a space. */
  lemma {:induction false} WordLengthWhole(a: string, b: string)
    requires NoSpace(a) && b != [] && IsSpace(b[0])
    ensures WordLength(a + b) == |a|
    decreases |a|
  {
    if a == [] {
      assert a + b == b;
    } else {
      assert (a + b)[1..] == a[1..] + b;
      assert NoSpace(a[1..]) by {
        assert forall i :: 0 <= i < |a| - 1 ==> a[1..][i] == a[i + 1];
      }
      WordLengthWhole(a[1..], b);
    }
  }

  /** Fields are split at every white-space character: splitting a string at
      one space splits its fields in the same place. */
  lemma {:induction false} FieldsSplit(a: string, c: char, b: string)
    requires IsSpace(c)
    ensures Fields(a + [c] + b) == Fields(a) + Fields(b)
    decreases |a|
  {
    var s := a + [c] + b;
    if a == [] {
      assert s == [c] + b;
      assert s[1..] == b;
    } else if IsSpace(a[0]) {
      assert s[1..] == a[1..] + [c] + b;
      FieldsSplit(a[1..], c, b);
    } else {
      var n := WordLength(a);
      if n < |a| {
        WordLengthPrefix(a, [c] + b);
        assert s == a + ([c] + b);
        assert s[..n] == a[..n];
        assert s[n..] == a[n..] + [c] + b;
        FieldsSplit(a[n..], c, b);
      } else {
        assert a[..n] == a;
        WordLengthWhole(a, [c] + b);
        assert s == a + ([c] + b);
        assert s[..n] == a;
        assert s[n..] == [c] + b;
        assert s[n..][1..] == b;
        assert a[n..] == [];
      }
    }
  }

  /** Round trip: tokens joined by single spaces are split back into the same tokens. */
  lemma {:induction false} FieldsOfJoin(ws: seq<string>)
    requires forall i :: 0 <= i < |ws| ==> IsField(ws[i])
    ensures Fields(JoinSpace(ws)) == ws
    decreases |ws|
  {
    if |ws| == 1 {
      FieldsOfField(ws[0]);
    } else if |ws| > 1 {
      FieldsOfJoin(ws[1..]);
      FieldsOfField(ws[0]);
      FieldsSplit(ws[0], ' ', JoinSpace(ws[1..]));
      assert ws[0] + " " + JoinSpace(ws[1..]) == ws[0] + [' '] + JoinSpace(ws[1..]);
      assert [ws[0]] + ws[1..] == ws;
    }
  }

  /** Leading white space does not change the fields. */
  lemma {:induction false} FieldsSkipsLeadingSpace(pre: string, s: string)
    requires AllSpace(pre)
    ensures Fields(pre + s) == Fields(s)
    decreases |pre|
  {
    if pre != [] {
      assert IsSpace((pre + s)[0]) by { assert (pre + s)[0] == pre[0]; }
      assert Fields(pre + s) == Fields((pre + s)[1..]);
      assert (pre + s)[1..] == pre[1..] + s;
      assert AllSpace(pre[1..]) by {
        assert forall i :: 0 <= i < |pre| - 1 ==> pre[1..][i] == pre[i + 1];
      }
      FieldsSkipsLeadingSpace(pre[1..], s);
    } else {
      assert pre + s == s;
    }
  }
}
