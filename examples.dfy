/** The examples of the package's doc comment: the lines of its sample file
    `test.cfg` and what the sample program reads back from them. */
module DocExamples {
  import opened TextFields
  import opened CommentSplit
  import opened Properties
  import opened ConfigStore
  import opened Wrappers

  /** A line of the sample file: an indentation tab, then the words separated
      by single spaces. */
  function Indented(ws: seq<string>): string
  {
    "\t" + JoinSpace(ws)
  }

  /** Words that are fields and hold no comment delimiter. */
  predicate PlainWords(ws: seq<string>)
  {
    forall i :: 0 <= i < |ws| ==> IsField(ws[i]) && forall k :: 0 <= k < |ws[i]| ==> !IsDelimiter(ws[i][k])
  }

  /** Characters of the sample file's words: neither white space nor a
      comment delimiter. */
  predicate SafeChar(c: char)
  {
    ('a' <= c <= 'z') || ('0' <= c <= '9') || c == '.' || c == ':' || c == '-'
  }

  predicate SafeWord(w: string)
  {
    w != [] && forall k :: 0 <= k < |w| ==> SafeChar(w[k])
  }

  /** Words of safe characters are plain words. */
  lemma SafeWordsArePlain(ws: seq<string>)
    requires forall i :: 0 <= i < |ws| ==> SafeWord(ws[i])
    ensures PlainWords(ws)
  {
  }

  lemma {:induction false} JoinNoDelimiter(ws: seq<string>)
    requires PlainWords(ws)
    ensures forall k :: 0 <= k < |JoinSpace(ws)| ==> !IsDelimiter(JoinSpace(ws)[k])
    decreases |ws|
  {
    if |ws| > 1 {
      JoinNoDelimiter(ws[1..]);
      var rest := JoinSpace(ws[1..]);
      var s := ws[0] + " " + rest;
      forall k | 0 <= k < |s| ensures !IsDelimiter(s[k]) {
        if k < |ws[0]| {
          assert s[k] == ws[0][k];
        } else if k > |ws[0]| {
          assert s[k] == rest[k - |ws[0]| - 1];
        }
      }
    }
  }

  /** The words of an indented line of plain words are those words, and the
      line holds no comment delimiter. */
  lemma IndentedWords(ws: seq<string>)
    requires ws != [] && PlainWords(ws)
    ensures forall k :: 0 <= k < |Indented(ws)| ==> !IsDelimiter(Indented(ws)[k])
    ensures Fields(Indented(ws)) == ws && !AllSpace(Indented(ws))
  {
    var line := Indented(ws);
    JoinNoDelimiter(ws);
    forall k | 0 <= k < |line| ensures !IsDelimiter(line[k]) {
      if k > 0 { assert line[k] == JoinSpace(ws)[k - 1]; }
    }
    assert AllSpace("\t") by { assert "\t"[0] == '\t'; }
    FieldsSkipsLeadingSpace("\t", JoinSpace(ws));
    FieldsOfJoin(ws);
    FieldsEmptyIffAllSpace(line);
  }

  /** An indented line of plain words parses into those words, and the
      comment stays empty. */
  lemma ParseIndented(ws: seq<string>)
    requires ws != [] && PlainWords(ws)
    ensures var r := Parse(Indented(ws));
      && r.ok && r.prop.name == ws[0] && r.prop.avals == ws[1..]
      && r.prop.kwvals == Keywords(map[], ws[1..]) && r.prop.keycomment == ""
  {
    IndentedWords(ws);
    ParsePlainLine(Indented(ws));
  }

  /** The same line followed by `;` and a one-line comment: the words are
      parsed as before and the text after the `;` is the comment. */
  lemma ParseIndentedCommented(ws: seq<string>, b: string)
    requires ws != [] && PlainWords(ws)
    requires forall m :: 0 <= m < |b| ==> b[m] != '\n'
    ensures var r := Parse(Indented(ws) + [';'] + b);
      && r.ok && r.prop.name == ws[0] && r.prop.avals == ws[1..]
      && r.prop.kwvals == Keywords(map[], ws[1..]) && r.prop.keycomment == b
  {
    IndentedWords(ws);
    var a := Indented(ws);
    assert NoCommentStart(a);
    ParseCommentedLine(a, ';', b);
  }

  /** conf.go line 22: `server server1 10.0.0.x:443 maxconn 25 check inter 5s rise 18 fall 3`. */
  const Server1: seq<string> :=
    ["server", "server1", "10.0.0.x:443", "maxconn", "25", "check", "inter", "5s", "rise", "18", "fall", "3"]

  lemma Server1Plain()
    ensures PlainWords(Server1)
  {
    assert forall i :: 0 <= i < |Server1| ==> SafeWord(Server1[i]);
    SafeWordsArePlain(Server1);
  }

  lemma Server1Keywords()
    ensures Keywords(map[], Server1[1..]) ==
      map["fall" := "3", "rise" := "18", "inter" := "5s", "25" := "check", "10.0.0.x:443" := "maxconn"]
  {
    var v := Server1[1..];
    assert v == ["server1", "10.0.0.x:443", "maxconn", "25", "check", "inter", "5s", "rise", "18", "fall", "3"];
    var m0: map<string, string> := map[];
    var m1 := m0["fall" := "3"];
    var m2 := m1["rise" := "18"];
    var m3 := m2["inter" := "5s"];
    var m4 := m3["25" := "check"];
    var m5 := m4["10.0.0.x:443" := "maxconn"];
    assert PairFrom(m0, v, 10) == PairFrom(m1, v, 8);
    assert PairFrom(m1, v, 8) == PairFrom(m2, v, 6);
    assert PairFrom(m2, v, 6) == PairFrom(m3, v, 4);
    assert PairFrom(m3, v, 4) == PairFrom(m4, v, 2);
    assert PairFrom(m4, v, 2) == PairFrom(m5, v, 0) == m5;
  }

  /** The parse of line 22: the pairs are taken from the right, so `25 check`
      and `10.0.0.x:443 maxconn` are paired too, and `inter` reads `5s`. */
  lemma Server1Pairs()
    ensures var p := Parse(Indented(Server1)).prop;
      && Parse(Indented(Server1)).ok && p.name == "server" && p.keycomment == ""
      && p.avals == Server1[1..]
      && p.kwvals == map["fall" := "3", "rise" := "18", "inter" := "5s", "25" := "check", "10.0.0.x:443" := "maxconn"]
      && p.GetValue("inter") == "5s"
  {
    Server1Plain();
    ParseIndented(Server1);
    Server1Keywords();
    var p := Parse(Indented(Server1)).prop;
    assert "inter" in p.GetAllMapValue();
  }

  /** conf.go line 23: `server server2 10.0.0.x:443 maxconn 25 check inter 4s rise 8 fall 2`. */
  const Server2: seq<string> :=
    ["server", "server2", "10.0.0.x:443", "maxconn", "25", "check", "inter", "4s", "rise", "8", "fall", "2"]

  lemma Server2Plain()
    ensures PlainWords(Server2)
  {
    assert forall i :: 0 <= i < |Server2| ==> SafeWord(Server2[i]);
    SafeWordsArePlain(Server2);
  }

  lemma Server2Keywords()
    ensures Keywords(map[], Server2[1..]) ==
      map["fall" := "2", "rise" := "8", "inter" := "4s", "25" := "check", "10.0.0.x:443" := "maxconn"]
  {
    var v := Server2[1..];
    assert v == ["server2", "10.0.0.x:443", "maxconn", "25", "check", "inter", "4s", "rise", "8", "fall", "2"];
    var m0: map<string, string> := map[];
    var m1 := m0["fall" := "2"];
    var m2 := m1["rise" := "8"];
    var m3 := m2["inter" := "4s"];
    var m4 := m3["25" := "check"];
    var m5 := m4["10.0.0.x:443" := "maxconn"];
    assert PairFrom(m0, v, 10) == PairFrom(m1, v, 8);
    assert PairFrom(m1, v, 8) == PairFrom(m2, v, 6);
    assert PairFrom(m2, v, 6) == PairFrom(m3, v, 4);
    assert PairFrom(m3, v, 4) == PairFrom(m4, v, 2);
    assert PairFrom(m4, v, 2) == PairFrom(m5, v, 0) == m5;
  }

  /** The parse of line 23, whose `inter` the sample program prints as `4s`. */
  lemma Server2Pairs()
    ensures var p := Parse(Indented(Server2)).prop;
      && Parse(Indented(Server2)).ok && p.name == "server" && p.avals == Server2[1..]
      && p.kwvals == map["fall" := "2", "rise" := "8", "inter" := "4s", "25" := "check", "10.0.0.x:443" := "maxconn"]
      && p.GetValue("inter") == "4s"
  {
    Server2Plain();
    ParseIndented(Server2);
    Server2Keywords();
    var p := Parse(Indented(Server2)).prop;
    assert "inter" in p.GetAllMapValue();
  }

  /** conf.go line 17: `server 10.0.0.x:80 10.0.0.x:80 maxconn 25 check inter 5s rise 3 fall 2`,
      eleven values: the first is never a left half, so the first
      `10.0.0.x:80` is paired with nothing and the second with `maxconn`. */
  const Server0: seq<string> :=
    ["server", "10.0.0.x:80", "10.0.0.x:80", "maxconn", "25", "check", "inter", "5s", "rise", "3", "fall", "2"]

  lemma Server0Plain()
    ensures PlainWords(Server0)
  {
    assert forall i :: 0 <= i < |Server0| ==> SafeWord(Server0[i]);
    SafeWordsArePlain(Server0);
  }

  lemma Server0Keywords()
    ensures Keywords(map[], Server0[1..]) ==
      map["fall" := "2", "rise" := "3", "inter" := "5s", "25" := "check", "10.0.0.x:80" := "maxconn"]
  {
    var v := Server0[1..];
    assert v == ["10.0.0.x:80", "10.0.0.x:80", "maxconn", "25", "check", "inter", "5s", "rise", "3", "fall", "2"];
    var m0: map<string, string> := map[];
    var m1 := m0["fall" := "2"];
    var m2 := m1["rise" := "3"];
    var m3 := m2["inter" := "5s"];
    var m4 := m3["25" := "check"];
    var m5 := m4["10.0.0.x:80" := "maxconn"];
    assert PairFrom(m0, v, 10) == PairFrom(m1, v, 8);
    assert PairFrom(m1, v, 8) == PairFrom(m2, v, 6);
    assert PairFrom(m2, v, 6) == PairFrom(m3, v, 4);
    assert PairFrom(m3, v, 4) == PairFrom(m4, v, 2);
    assert PairFrom(m4, v, 2) == PairFrom(m5, v, 0) == m5;
  }

  lemma Server0Pairs()
    ensures var p := Parse(Indented(Server0)).prop;
      && Parse(Indented(Server0)).ok && p.name == "server" && p.avals == Server0[1..]
      && p.kwvals == map["fall" := "2", "rise" := "3", "inter" := "5s", "25" := "check", "10.0.0.x:80" := "maxconn"]
  {
    Server0Plain();
    ParseIndented(Server0);
    Server0Keywords();
  }

  /** A key line with a trailing comment, `server s1 1.2.3.4:80 check; primary`:
      the comment is the text after the `;`, here ` primary`. */
  const Commented: seq<string> := ["server", "s1", "1.2.3.4:80", "check"]

  lemma CommentedLine()
    ensures var r := Parse(Indented(Commented) + [';'] + " primary");
      && r.ok && r.prop.name == "server" && r.prop.avals == ["s1", "1.2.3.4:80", "check"]
      && r.prop.keycomment == " primary"
  {
    assert forall i :: 0 <= i < |Commented| ==> SafeWord(Commented[i]);
    SafeWordsArePlain(Commented);
    ParseIndentedCommented(Commented, " primary");
  }

  // ---------------------------------------------------------------------------
  // The sample program: one `listen` section holding lines 22 and 23
  // ---------------------------------------------------------------------------

  /** A line of plain words with no indentation parses into those words. */
  lemma ParseJoined(ws: seq<string>)
    requires ws != [] && PlainWords(ws)
    ensures var r := Parse(JoinSpace(ws));
      && r.ok && r.prop.name == ws[0] && r.prop.avals == ws[1..]
      && r.prop.kwvals == Keywords(map[], ws[1..]) && r.prop.keycomment == ""
  {
    JoinNoDelimiter(ws);
    FieldsOfJoin(ws);
    FieldsEmptyIffAllSpace(JoinSpace(ws));
    ParsePlainLine(JoinSpace(ws));
  }

  /** conf.go line 19, a section header with two values. */
  const Listen443: seq<string> := ["listen", "s", "0.0.0.0:443"]

  /** The header pairs its two values, so `GetValue("s")` reads the address. */
  lemma Listen443Header()
    ensures var p := Parse(JoinSpace(Listen443)).prop;
      && Parse(JoinSpace(Listen443)).ok && p.name == "listen"
      && p.GetValue("s") == "0.0.0.0:443" && p.GetValueIndex(1) == "0.0.0.0:443"
  {
    assert forall i :: 0 <= i < |Listen443| ==> SafeWord(Listen443[i]);
    SafeWordsArePlain(Listen443);
    ParseJoined(Listen443);
    var v := Listen443[1..];
    assert v == ["s", "0.0.0.0:443"];
    assert PairFrom(map[], v, 1) == PairFrom(map["s" := "0.0.0.0:443"], v, -1);
  }

  /** With only `sec` recognised, a header line for it followed by two key
      lines of one name gives one instance whose key table holds both records,
      in order. */
  lemma HeaderThenTwoKeys(sec: string, header: string, line1: string, line2: string)
    requires Parse(header).ok && Parse(header).prop.name == sec
    requires Parse(line1).ok && Parse(line2).ok
    requires Parse(line1).prop.name == Parse(line2).prop.name != sec
    ensures Valid(SetSectionName(Empty(), [sec]))
    ensures var st := LoadString(LoadString(LoadString(SetSectionName(Empty(), [sec]), header), line1), line2);
      && st.sectionData == map[sec := [Parse(header).prop]]
      && st.data[sec][0][Parse(line1).prop.name] == [Parse(line1).prop, Parse(line2).prop]
  {
    var st0 := SetSectionName(Empty(), [sec]);
    EmptyIsValid();
    assert st0.sectionList == [sec];
    var st1 := LoadString(st0, header);
    assert st1 == AddSectionValue(st0, sec, Parse(header).prop);
    assert st0.sectionData == map[] && st0.data == map[];
    assert Lookup(st0.sectionData, sec) + [Parse(header).prop] == [Parse(header).prop];
    assert st1.sectionData == map[sec := [Parse(header).prop]];
    assert st1.currentKeys == Some(KeyRef(sec, 0));
    RepeatedKeysKeepOrder(st1, line1, line2);
  }

  /** A `listen` header and two `server` lines whose `inter` values are `x`
      and `y`: the instance holds both records, in order. */
  lemma ListenThenTwoServers(header: string, line1: string, line2: string, x: string, y: string)
    requires Parse(header).ok && Parse(header).prop.name == "listen"
    requires Parse(line1).ok && Parse(line1).prop.name == "server" && Parse(line1).prop.GetValue("inter") == x
    requires Parse(line2).ok && Parse(line2).prop.name == "server" && Parse(line2).prop.GetValue("inter") == y
    ensures Valid(SetSectionName(Empty(), ["listen"]))
    ensures var st := LoadString(LoadString(LoadString(SetSectionName(Empty(), ["listen"]), header), line1), line2);
      && st.sectionData == map["listen" := [Parse(header).prop]]
      && "listen" in st.data && |st.data["listen"]| == 1 && "server" in st.data["listen"][0]
      && |st.data["listen"][0]["server"]| == 2
      && st.data["listen"][0]["server"][0].GetValue("inter") == x
      && st.data["listen"][0]["server"][1].GetValue("inter") == y
  {
    HeaderThenTwoKeys("listen", header, line1, line2);
    var st := LoadString(LoadString(LoadString(SetSectionName(Empty(), ["listen"]), header), line1), line2);
    assert st.data["listen"][0]["server"] == [Parse(line1).prop, Parse(line2).prop];
  }

  /** The sample file's second `listen` section, lines 19, 22 and 23: the
      sample program reads `inter` as `5s` and then `4s`. */
  lemma ListenScenario()
    ensures Valid(SetSectionName(Empty(), ["listen"]))
    ensures var st := LoadString(LoadString(LoadString(SetSectionName(Empty(), ["listen"]),
                       JoinSpace(Listen443)), Indented(Server1)), Indented(Server2));
      && "listen" in st.sectionData && |st.sectionData["listen"]| == 1
      && st.sectionData["listen"][0].GetValue("s") == "0.0.0.0:443"
      && "listen" in st.data && |st.data["listen"]| == 1 && "server" in st.data["listen"][0]
      && |st.data["listen"][0]["server"]| == 2
      && st.data["listen"][0]["server"][0].GetValue("inter") == "5s"
      && st.data["listen"][0]["server"][1].GetValue("inter") == "4s"
  {
    Listen443Header();
    Server1Pairs();
    Server2Pairs();
    ListenThenTwoServers(JoinSpace(Listen443), Indented(Server1), Indented(Server2), "5s", "4s");
  }
}
