/** One parsed line of the configuration file: Go's `Property`, its `Load`
    parser and its accessors. */
module Properties {
  import opened Wrappers
  import opened TextFields
  import opened CommentSplit

  /** A `Property` value, as Go copies it into slices and maps. */
  datatype PropertyValue = PropertyValue(
    name: string,                     // the first word of the line
    avals: seq<string>,               // every word after the name
    kwvals: map<string, string>,      // the pairs derived from the tail of avals
    keycomment: string)               // the text after the comment delimiter
  {
    /** `GetAllSliceValue`: the words after the name, the stored slice itself. */
    function GetAllSliceValue(): (r: seq<string>)
      ensures r == avals
    {
      avals
    }

    /** `GetAllMapValue`: the pairs, the stored map itself. */
    function GetAllMapValue(): (r: map<string, string>)
      ensures r == kwvals
    {
      kwvals
    }

    /** `GetValue`: Go's map lookup gives the empty string for a missing key. */
    function GetValue(key: string): (r: string)
      ensures key in GetAllMapValue() ==> r == GetAllMapValue()[key]
      ensures key !in GetAllMapValue() ==> r == ""
    {
      if key in kwvals then kwvals[key] else ""
    }

    /** `GetValueIndex`: Go indexes the slice unchecked, so an index outside
        it is a panic; this model asks the caller to stay inside. */
    function GetValueIndex(index: int): (r: string)
      requires 0 <= index < |avals|
      ensures r == GetAllSliceValue()[index]
    {
      avals[index]
    }
  }

  /** `newProperty(name)`: the given name and nothing else. */
  function NewProperty(name: string): PropertyValue
  {
    PropertyValue(name, [], map[], "")
  }

  /** What `newProperty` gives: the name, no values, no pairs and no comment. */
  lemma NewPropertyIsBlank(name: string)
    ensures var p := NewProperty(name);
      p.name == name && p.avals == [] && p.GetAllMapValue() == map[] && p.keycomment == ""
      && forall k :: p.GetValue(k) == ""
  {
  }

  // ---------------------------------------------------------------------------
  // The key/value pairing of Load's loop: for i := len(fields) - 2; i > 0; i -= 2
  // it writes kwvals[values[i-1]] = values[i], where values = fields[1:].
  // ---------------------------------------------------------------------------

  /** `l` is the left half of a pair written by the loop when its index
      starts at `i`: the writes are `v[l] |-> v[l + 1]` for
      `l = i - 1, i - 3, ...` down to 0. */
  predicate IsLeft(i: int, l: int)
  {
    0 <= l < i && (i - 1 - l) % 2 == 0
  }

  /** The map left by the writes for loop indices `i`, `i - 2`, ... while
      positive, applied in that order to `m`. */
  function PairFrom(m: map<string, string>, v: seq<string>, i: int): (r: map<string, string>)
    requires i < |v|
    ensures m.Keys <= r.Keys
    decreases i
  {
    if i <= 0 then m else PairFrom(m[v[i - 1] := v[i]], v, i - 2)
  }

  /** The map Load's loop produces from `m` for the values `v`. */
  function Keywords(m: map<string, string>, v: seq<string>): (r: map<string, string>)
    ensures m.Keys <= r.Keys
  {
    PairFrom(m, v, |v| - 1)
  }

  /** A key that no pair has as its left half keeps its old entry (or stays absent). */
  lemma {:induction false} PairFromUntouched(m: map<string, string>, v: seq<string>, i: int, k: string)
    requires i < |v|
    requires forall l :: IsLeft(i, l) ==> v[l] != k
    ensures k in PairFrom(m, v, i) <==> k in m
    ensures k in m ==> PairFrom(m, v, i)[k] == m[k]
    decreases i
  {
    if i > 0 {
      assert IsLeft(i, i - 1);
      forall l | IsLeft(i - 2, l) ensures v[l] != k {
        assert IsLeft(i, l);
      }
      PairFromUntouched(m[v[i - 1] := v[i]], v, i - 2, k);
    }
  }

  /** The leftmost pair wins: the write with the smallest index comes last,
      so a repeated key ends up with the value of its leftmost pair. */
  lemma {:induction false} PairFromLeftmost(m: map<string, string>, v: seq<string>, i: int, l: int)
    requires i < |v| && IsLeft(i, l)
    requires forall l' :: IsLeft(i, l') && l' < l ==> v[l'] != v[l]
    ensures v[l] in PairFrom(m, v, i) && PairFrom(m, v, i)[v[l]] == v[l + 1]
    decreases i
  {
    var m' := m[v[i - 1] := v[i]];
    if l == i - 1 {
      forall l' | IsLeft(i - 2, l') ensures v[l'] != v[l] {
        assert IsLeft(i, l');
      }
      PairFromUntouched(m', v, i - 2, v[l]);
    } else {
      assert IsLeft(i - 2, l);
      forall l' | IsLeft(i - 2, l') && l' < l ensures v[l'] != v[l] {
        assert IsLeft(i, l');
      }
      PairFromLeftmost(m', v, i - 2, l);
    }
  }

  /** The left halves of the pairs written from loop index `i` on. */
  function LeftHalves(v: seq<string>, i: int): set<string>
    requires i < |v|
  {
    set l | 0 <= l < i && IsLeft(i, l) :: v[l]
  }

  /** The keys after the loop are the old keys and the left halves of the pairs. */
  lemma {:induction false} PairFromKeys(m: map<string, string>, v: seq<string>, i: int)
    requires i < |v|
    ensures PairFrom(m, v, i).Keys == m.Keys + LeftHalves(v, i)
    decreases i
  {
    if i > 0 {
      PairFromKeys(m[v[i - 1] := v[i]], v, i - 2);
      assert LeftHalves(v, i) == {v[i - 1]} + LeftHalves(v, i - 2) by {
        forall x | x in LeftHalves(v, i) ensures x in {v[i - 1]} + LeftHalves(v, i - 2) {
          var l :| 0 <= l < i && IsLeft(i, l) && v[l] == x;
          if l != i - 1 { assert IsLeft(i - 2, l); }
        }
        forall x | x in LeftHalves(v, i - 2) ensures x in LeftHalves(v, i) {
          var l :| 0 <= l < i - 2 && IsLeft(i - 2, l) && v[l] == x;
          assert IsLeft(i, l);
        }
        assert IsLeft(i, i - 1);
      }
    } else {
      assert LeftHalves(v, i) == {};
    }
  }

  /** The number of writes the loop makes from index `i` on. */
  function WriteCount(i: int): nat
  {
    if i <= 0 then 0 else (i + 1) / 2
  }

  /** One write adds at most one key. */
  lemma WriteSize(m: map<string, string>, k: string, x: string)
    ensures |m[k := x].Keys| <= |m.Keys| + 1
  {
    if k in m {
      assert m[k := x].Keys == m.Keys;
    } else {
      assert m[k := x].Keys == m.Keys + {k};
    }
  }

  /** At most one new key per write. */
  lemma {:induction false} PairFromSize(m: map<string, string>, v: seq<string>, i: int)
    requires i < |v|
    ensures |PairFrom(m, v, i).Keys| <= |m.Keys| + WriteCount(i)
    decreases i
  {
    if i > 0 {
      WriteSize(m, v[i - 1], v[i]);
      assert WriteCount(i) == WriteCount(i - 2) + 1;
      PairFromSize(m[v[i - 1] := v[i]], v, i - 2);
    }
  }

  /** Load's pairing writes at most half as many keys as there are values. */
  lemma KeywordsSize(v: seq<string>)
    ensures |Keywords(map[], v).Keys| <= |v| / 2
  {
    PairFromSize(map[], v, |v| - 1);
  }

  /** The keys Load writes are exactly the left halves of its pairs. */
  lemma KeywordsKeys(m: map<string, string>, v: seq<string>)
    ensures Keywords(m, v).Keys == m.Keys + LeftHalves(v, |v| - 1)
  {
    PairFromKeys(m, v, |v| - 1);
  }

  /** The value Load leaves under a key: that of the leftmost pair `v[l] |-> v[l + 1]`
      whose left half is the key. */
  lemma KeywordsLeftmost(m: map<string, string>, v: seq<string>, l: int)
    requires IsLeft(|v| - 1, l)
    requires forall l' :: IsLeft(|v| - 1, l') && l' < l ==> v[l'] != v[l]
    ensures v[l] in Keywords(m, v) && Keywords(m, v)[v[l]] == v[l + 1]
  {
    PairFromLeftmost(m, v, |v| - 1, l);
  }

  /** With an odd number of values the first one is never a left half: a key
      `v[0]` that is not repeated at another left position is not written. */
  lemma KeywordsOddSkipsFirst(v: seq<string>)
    requires |v| % 2 == 1
    requires forall l :: IsLeft(|v| - 1, l) ==> v[l] != v[0]
    ensures v[0] !in Keywords(map[], v)
  {
    PairFromUntouched(map[], v, |v| - 1, v[0]);
  }

  // ---------------------------------------------------------------------------
  // Load
  // ---------------------------------------------------------------------------

  /** What Load returns and what it leaves in the receiver. */
  datatype LoadOutcome = LoadOutcome(ok: bool, prop: PropertyValue)

  /** The text Load splits into fields: the content group of the match, or
      the whole line when the pattern does not match. */
  function Content(line: string): (r: string)
    ensures |r| <= |line|
    ensures FindSubmatch(line).None? ==> r == line
  {
    match FindSubmatch(line)
    case Some(m) => m.content
    case None => line
  }

  /** When the pattern matches, the content holds no `;` and no `#`. */
  lemma ContentOfMatch(line: string)
    requires FindSubmatch(line).Some?
    ensures NoCommentStart(Content(line))
  {
  }

  /** `p.Load(line)` applied to a receiver holding `p`. A match sets
      `keycomment` before the emptiness test, so a comment-only line still
      overwrites the comment. Names and values are appended to what the
      receiver already holds and pairs are written over its old map. */
  function Loaded(p: PropertyValue, line: string): (r: LoadOutcome)
    ensures r.ok <==> !AllSpace(Content(line))
    ensures r.ok ==> IsField(r.prop.name)
  {
    FieldsEmptyIffAllSpace(Content(line));
    var match_ := FindSubmatch(line);
    var p1 := if match_.Some? then p.(keycomment := match_.value.comment) else p;
    var fields := Fields(Content(line));
    if |fields| == 0 then LoadOutcome(false, p1)
    else
      var values := fields[1..];
      LoadOutcome(true, p1.(name := fields[0], avals := p1.avals + values,
                            kwvals := Keywords(p1.kwvals, values)))
  }

  /** What `LoadString` obtains from a line: `newProperty("")` then `Load`. */
  function Parse(line: string): LoadOutcome
  {
    Loaded(NewProperty(""), line)
  }

  /** A line is a record exactly when its content has a field, the record is
      named by a single field, a line without a comment has no `keycomment`,
      and a line that is no record leaves `newProperty("")` as it was. */
  lemma ParseOutcome(line: string)
    ensures var r := Parse(line);
      && (r.ok <==> !AllSpace(Content(line)))
      && (r.ok ==> IsField(r.prop.name))
      && (FindSubmatch(line).None? ==> r.prop.keycomment == "")
      && (!r.ok ==> r.prop.name == "" && r.prop.avals == [] && r.prop.kwvals == map[])
  {
    NewPropertyIsBlank("");
  }

  /** The mutable `*Property` that `newProperty` returns and `Load` fills. */
  class Property {
    var name: string
    var avals: seq<string>
    var kwvals: map<string, string>
    var keycomment: string

    /** The value Go copies out with `*p`. */
    function Value(): PropertyValue
      reads this
    {
      PropertyValue(name, avals, kwvals, keycomment)
    }

    /** `newProperty(name)`. */
    constructor (name: string)
      ensures Value() == NewProperty(name)
    {
      this.name := name;
      avals := [];
      kwvals := map[];
      keycomment := "";
    }

    /** `AppendList`: the values go after those already held. */
    method AppendList(values: seq<string>)
      modifies this
      ensures avals == old(avals) + values
      ensures name == old(name) && kwvals == old(kwvals) && keycomment == old(keycomment)
    {
      avals := avals + values;
    }

    /** `SetValue`: one entry of the map is written. */
    method SetValue(key: string, value: string)
      modifies this
      ensures kwvals == old(kwvals)[key := value]
      ensures name == old(name) && avals == old(avals) && keycomment == old(keycomment)
    {
      kwvals := kwvals[key := value];
    }

    /** `SetComments`: the name argument is ignored, as in Go. */
    method SetComments(name: string, comments: string)
      modifies this
      ensures keycomment == comments
      ensures this.name == old(this.name) && avals == old(avals) && kwvals == old(kwvals)
    {
      keycomment := comments;
    }

    /** `Load`: split off the comment, split the content into fields, take the
        first as the name, append the rest to the values, and pair the values
        from the right. */
    method Load(str: string) returns (ok: bool)
      modifies this
      ensures LoadOutcome(ok, Value()) == Loaded(old(Value()), str)
    {
      var content: string;
      var match_ := FindSubmatch(str);
      if match_.None? {
        content := str;
      } else {
        content := match_.value.content;
        keycomment := match_.value.comment;
      }
      var fields := Fields(content);
      var length := |fields|;
      if length == 0 {
        return false;
      }
      name := fields[0];
      var values := fields[1..];
      ghost var before := kwvals;
      AppendList(values);
      var i := length - 2;
      while i > 0
        invariant -1 <= i <= length - 2
        invariant (length - 2 - i) % 2 == 0
        invariant PairFrom(kwvals, values, i) == Keywords(before, values)
        invariant name == fields[0] && avals == old(avals) + values
        invariant keycomment == (if match_.Some? then match_.value.comment else old(keycomment))
        decreases i
      {
        kwvals := kwvals[values[i - 1] := values[i]];
        i := i - 2;
      }
      return true;
    }
  }

  // ---------------------------------------------------------------------------
  // What Load promises about a line
  // ---------------------------------------------------------------------------

  /** The doc comment of Load: it returns false exactly when nothing but white
      space is left once the comment is cut off; otherwise the first word is
      the name and the other words are the values, in order. */
  lemma LoadedFields(p: PropertyValue, line: string)
    ensures var r := Loaded(p, line);
      && (r.ok <==> !AllSpace(Content(line)))
      && (r.ok ==> r.prop.name == Fields(Content(line))[0] && IsField(r.prop.name)
                   && r.prop.avals == p.avals + Fields(Content(line))[1..])
      && (!r.ok ==> r.prop.name == p.name && r.prop.avals == p.avals && r.prop.kwvals == p.kwvals)
  {
    FieldsEmptyIffAllSpace(Content(line));
  }

  /** The comment Load records: the comment group when the pattern matches,
      the receiver's old comment when it does not. */
  lemma LoadedComment(p: PropertyValue, line: string)
    ensures FindSubmatch(line).Some? ==> Loaded(p, line).prop.keycomment == FindSubmatch(line).value.comment
    ensures FindSubmatch(line).None? ==> Loaded(p, line).prop.keycomment == p.keycomment
  {
  }

  /** A line with no `;`, `|` or `#`: all of it is content and the comment is
      left as it was (empty, for a new property). */
  lemma ParsePlainLine(line: string)
    requires forall k :: 0 <= k < |line| ==> !IsDelimiter(line[k])
    ensures Content(line) == line
    ensures Parse(line).ok <==> !AllSpace(line)
    ensures Parse(line).ok ==>
      && Parse(line).prop.name == Fields(line)[0]
      && Parse(line).prop.avals == Fields(line)[1..]
      && Parse(line).prop.kwvals == Keywords(map[], Fields(line)[1..])
    ensures Parse(line).prop.keycomment == ""
  {
    NoDelimiterNoMatch(line);
    LoadedFields(NewProperty(""), line);
  }

  /** A line `a + [d] + b` whose first comment character is `d`: the words of
      `a` are the name and the values, `b` is the comment, even when `a` is
      blank (the comment is then recorded and Load still returns false). */
  lemma ParseCommentedLine(a: string, d: char, b: string)
    requires IsCommentStart(d) && NoCommentStart(a)
    requires forall m :: 0 <= m < |b| ==> b[m] != '\n'
    ensures Content(a + [d] + b) == a
    ensures Parse(a + [d] + b).ok <==> !AllSpace(a)
    ensures Parse(a + [d] + b).ok ==>
      && Parse(a + [d] + b).prop.name == Fields(a)[0]
      && Parse(a + [d] + b).prop.avals == Fields(a)[1..]
      && Parse(a + [d] + b).prop.kwvals == Keywords(map[], Fields(a)[1..])
    ensures Parse(a + [d] + b).prop.keycomment == b
  {
    SplitAfter(a, d, b);
    LoadedFields(NewProperty(""), a + [d] + b);
  }

  /** What `GetValue` reads back from a parsed value list: the value of the
      leftmost pair whose left half is the key. */
  lemma GetValueOfLeftmostPair(p: PropertyValue, v: seq<string>, l: int)
    requires p.kwvals == Keywords(map[], v)
    requires IsLeft(|v| - 1, l)
    requires forall l' :: IsLeft(|v| - 1, l') && l' < l ==> v[l'] != v[l]
    ensures p.GetValue(v[l]) == v[l + 1]
  {
    KeywordsLeftmost(map[], v, l);
  }

  /** `GetValue` of a word that is the left half of no pair is the empty string. */
  lemma GetValueOfUnpairedWord(p: PropertyValue, v: seq<string>, k: string)
    requires p.kwvals == Keywords(map[], v)
    requires forall l :: IsLeft(|v| - 1, l) ==> v[l] != k
    ensures p.GetValue(k) == ""
  {
    PairFromUntouched(map[], v, |v| - 1, k);
  }

  /** `GetValueIndex(i)` of a parsed line is the word after the name at
      position `i`. */
  lemma GetValueIndexOfParsedLine(line: string, i: int)
    requires Parse(line).ok && 0 <= i < |Parse(line).prop.avals|
    ensures Parse(line).prop.GetValueIndex(i) == Fields(Content(line))[i + 1]
    ensures IsField(Parse(line).prop.GetValueIndex(i))
  {
  }
}
