// Cloud topic names: the printer and the parser.
module Topics {
  import opened Wrappers

  datatype Route = Route(raw: string, prefix: string, topic: string, segments: seq<string>)

  const TOPICS: set<string> := {
    "a", "console", "datastore", "d", "file", "mailbox", "sh", "spi", "status", "system"}

  // ---- The library functions the source relies on ----

  // str.split("/")
  function Split(s: string): (r: seq<string>)
    ensures |r| >= 1
  {
    if s == [] then [""]
    else
      var rest := Split(s[1..]);
      if s[0] == '/' then [""] + rest else [[s[0]] + rest[0]] + rest[1..]
  }

  function NonEmpty(parts: seq<string>): seq<string>
  {
    if parts == [] then []
    else if parts[0] == "" then NonEmpty(parts[1..])
    else [parts[0]] + NonEmpty(parts[1..])
  }

  function Pieces(s: string): seq<string> { NonEmpty(Split(s)) }

  function StripLeft(s: string): string
  {
    if s != [] && s[0] == '/' then StripLeft(s[1..]) else s
  }

  function StripRight(s: string): string
  {
    if s != [] && s[|s| - 1] == '/' then StripRight(s[..|s| - 1]) else s
  }

  // str.strip("/")
  function Strip(s: string): string { StripRight(StripLeft(s)) }

  // posixpath.join: an absolute part starts over, a missing slash is supplied.
  function JoinOnto(path: string, parts: seq<string>): string
    decreases |parts|
  {
    if parts == [] then path
    else
      var b := parts[0];
      var next := if b != [] && b[0] == '/' then b
                  else if path == [] || path[|path| - 1] == '/' then path + b
                  else path + "/" + b;
      JoinOnto(next, parts[1..])
  }

  // "/".join
  function Slashed(parts: seq<string>): string
  {
    if parts == [] then "" else if |parts| == 1 then parts[0] else parts[0] + "/" + Slashed(parts[1..])
  }

  // ---- mcubridge/protocol/topics.py ----

  function Stripped(parts: seq<string>): seq<string>
  {
    if parts == [] then [] else [Strip(parts[0])] + Stripped(parts[1..])
  }

  function TopicPath(prefix: string, topic: string, segments: seq<string>): string
  {
    var parts := NonEmpty(Stripped([prefix, topic] + segments));
    if parts == [] then "" else JoinOnto(parts[0], parts[1..])
  }

  function ParseTopic(prefix: string, name: string): Option<Route>
  {
    if name == "" || prefix == "" then None
    else
      var head, all := Pieces(prefix), Pieces(name);
      if |all| <= |head| || all[..|head|] != head then None
      else if all[|head|] !in TOPICS then None
      else Some(Route(name, Slashed(head), all[|head|], all[|head| + 1..]))
  }

  // ---- Cutting and joining ----

  predicate Clean(s: string) { s != [] && forall i :: 0 <= i < |s| ==> s[i] != '/' }

  lemma SplitStep(s: string)
    ensures Split("") == [""]
    ensures s != "" && s[0] == '/' ==> Split(s) == [""] + Split(s[1..])
    ensures s != "" && s[0] != '/' ==> Split(s) == [[s[0]] + Split(s[1..])[0]] + Split(s[1..])[1..]
  {
  }

  lemma {:induction false} SplitConcat(a: string, b: string)
    ensures Split(a + "/" + b) == Split(a) + Split(b)
  {
    hide Split;
    var s := a + "/" + b;
    SplitStep(s);
    SplitStep(a);
    if a == [] {
      assert s[1..] == b;
    } else {
      SplitConcat(a[1..], b);
      var x, y := Split(a[1..]), Split(b);
      assert s[0] == a[0] && s[1..] == a[1..] + "/" + b;
      assert (x + y)[0] == x[0] && (x + y)[1..] == x[1..] + y;
    }
  }

  lemma NonEmptyStep(parts: seq<string>)
    ensures NonEmpty([]) == []
    ensures parts != [] ==> NonEmpty(parts) == (if parts[0] == "" then [] else [parts[0]]) + NonEmpty(parts[1..])
  {
  }

  lemma {:induction false} NonEmptyConcat(a: seq<string>, b: seq<string>)
    ensures NonEmpty(a + b) == NonEmpty(a) + NonEmpty(b)
  {
    hide NonEmpty;
    NonEmptyStep(a);
    NonEmptyStep(a + b);
    if a == [] {
      assert a + b == b;
    } else {
      NonEmptyConcat(a[1..], b);
      assert (a + b)[0] == a[0] && (a + b)[1..] == a[1..] + b;
    }
  }

  lemma PiecesConcat(a: string, b: string)
    ensures Pieces(a + "/" + b) == Pieces(a) + Pieces(b)
  {
    SplitConcat(a, b);
    NonEmptyConcat(Split(a), Split(b));
  }

  lemma {:induction false} PiecesStripLeft(s: string)
    ensures Pieces(StripLeft(s)) == Pieces(s)
  {
    if s != [] && s[0] == '/' {
      PiecesStripLeft(s[1..]);
      PiecesConcat("", s[1..]);
      assert "" + "/" + s[1..] == s;
      assert Pieces("") == [];
    }
  }

  lemma {:induction false} PiecesStripRight(s: string)
    ensures Pieces(StripRight(s)) == Pieces(s)
  {
    if s != [] && s[|s| - 1] == '/' {
      var front := s[..|s| - 1];
      PiecesStripRight(front);
      PiecesConcat(front, "");
      assert front + "/" + "" == s;
      assert Pieces("") == [];
    }
  }

  lemma {:induction false} PiecesClean(s: string)
    requires Clean(s)
    ensures Split(s) == [s] && Pieces(s) == [s]
  {
    if |s| > 1 {
      PiecesClean(s[1..]);
    } else {
      assert Split(s[1..]) == [""];
    }
    assert s == [s[0]] + s[1..];
    assert Split(s) == [s];
    assert NonEmpty([s]) == [s] + NonEmpty([]);
  }

  // Every piece is clean.
  lemma {:induction false} SplitNoSlash(s: string)
    ensures forall p :: p in Split(s) ==> forall i :: 0 <= i < |p| ==> p[i] != '/'
  {
    if s != [] {
      SplitNoSlash(s[1..]);
    }
  }

  lemma {:induction false} NonEmptyIn(parts: seq<string>)
    ensures forall p :: p in NonEmpty(parts) <==> p in parts && p != ""
  {
    if parts != [] {
      NonEmptyIn(parts[1..]);
      assert parts == [parts[0]] + parts[1..];
    }
  }

  lemma PiecesAreClean(s: string)
    ensures forall p :: p in Pieces(s) ==> Clean(p)
  {
    SplitNoSlash(s);
    NonEmptyIn(Split(s));
  }

  // The pieces of several strings, in order.
  function Flat(parts: seq<string>): seq<string>
  {
    if parts == [] then [] else Pieces(parts[0]) + Flat(parts[1..])
  }

  lemma {:induction false} FlatClean(parts: seq<string>)
    requires forall p :: p in parts ==> Clean(p)
    ensures Flat(parts) == parts
  {
    if parts != [] {
      PiecesClean(parts[0]);
      FlatClean(parts[1..]);
    }
  }

  lemma {:induction false} StripLeftEdge(s: string)
    ensures StripLeft(s) != "" ==> StripLeft(s)[0] != '/'
  {
    if s != [] && s[0] == '/' {
      StripLeftEdge(s[1..]);
    }
  }

  lemma {:induction false} StripRightEdge(s: string)
    ensures var r := StripRight(s); r != "" ==> r[|r| - 1] != '/' && r[0] == s[0]
  {
    if s != [] && s[|s| - 1] == '/' {
      StripRightEdge(s[..|s| - 1]);
    }
  }

  // Neither end of a part is a slash.
  predicate Trimmed(s: string) { s != "" && s[0] != '/' && s[|s| - 1] != '/' }

  lemma {:induction false} StrippedParts(parts: seq<string>)
    ensures Flat(NonEmpty(Stripped(parts))) == Flat(parts)
    ensures forall p :: p in NonEmpty(Stripped(parts)) ==> Trimmed(p)
  {
    if parts != [] {
      var p := parts[0];
      StrippedParts(parts[1..]);
      PiecesStripLeft(p);
      PiecesStripRight(StripLeft(p));
      StripLeftEdge(p);
      StripRightEdge(StripLeft(p));
      assert Pieces(Strip(p)) == Pieces(p);
      assert Pieces("") == [];
      assert Stripped(parts)[1..] == Stripped(parts[1..]);
    }
  }

  // On trimmed parts the joiner only puts slashes between them.
  lemma {:induction false} JoinPieces(path: string, parts: seq<string>)
    requires Trimmed(path) && forall p :: p in parts ==> Trimmed(p)
    ensures Pieces(JoinOnto(path, parts)) == Pieces(path) + Flat(parts)
    ensures JoinOnto(path, parts) != ""
    decreases |parts|
  {
    hide Pieces;
    if parts != [] {
      var next := path + "/" + parts[0];
      assert parts[0] in parts && next[|next| - 1] == parts[0][|parts[0]| - 1];
      JoinPieces(next, parts[1..]);
      PiecesConcat(path, parts[0]);
      assert JoinOnto(path, parts) == JoinOnto(next, parts[1..]);
    }
  }

  // What a printed topic says: the pieces of everything it was made of, in order.
  lemma PrintedPieces(prefix: string, topic: string, segments: seq<string>)
    requires Pieces(topic) != []
    ensures Pieces(TopicPath(prefix, topic, segments)) == Pieces(prefix) + Pieces(topic) + Flat(segments)
    ensures TopicPath(prefix, topic, segments) != ""
  {
    var all := [prefix, topic] + segments;
    StrippedParts(all);
    assert all[1..] == [topic] + segments && all[1..][1..] == segments;
    assert Flat(all) == Pieces(prefix) + (Pieces(topic) + Flat(segments));
    var parts := NonEmpty(Stripped(all));
    assert parts != [];
    JoinPieces(parts[0], parts[1..]);
  }

  lemma TopicsAreClean(topic: string)
    requires topic in TOPICS
    ensures Clean(topic) && Pieces(topic) == [topic]
  {
    PiecesClean(topic);
  }

  // Round trip: for every non-empty prefix, known topic and segments, parsing the printed
  // name gives back the topic and the non-empty pieces of the segments.
  lemma RoundTrip(prefix: string, topic: string, segments: seq<string>)
    requires prefix != "" && topic in TOPICS
    ensures var name := TopicPath(prefix, topic, segments);
            ParseTopic(prefix, name) == Some(Route(name, Slashed(Pieces(prefix)), topic, Flat(segments)))
  {
    TopicsAreClean(topic);
    PrintedPieces(prefix, topic, segments);
    var head := Pieces(prefix);
    var all := head + [topic] + Flat(segments);
    assert all[..|head|] == head && all[|head|] == topic && all[|head| + 1..] == Flat(segments);
  }

  // Exactly the names that spell prefix, known topic, rest are parsed.
  lemma ParsesIff(prefix: string, name: string, topic: string, segments: seq<string>)
    requires prefix != "" && name != ""
    ensures ParseTopic(prefix, name) == Some(Route(name, Slashed(Pieces(prefix)), topic, segments))
            <==> topic in TOPICS && Pieces(name) == Pieces(prefix) + [topic] + segments
  {
    var head, all := Pieces(prefix), Pieces(name);
    if all == head + [topic] + segments {
      assert all[..|head|] == head && all[|head|] == topic && all[|head| + 1..] == segments;
    }
    if ParseTopic(prefix, name) == Some(Route(name, Slashed(head), topic, segments)) {
      assert all == all[..|head|] + [all[|head|]] + all[|head| + 1..];
    }
  }

  lemma {:induction false} SlashedPieces(parts: seq<string>)
    requires forall p :: p in parts ==> Clean(p)
    ensures Pieces(Slashed(parts)) == parts && (Slashed(parts) == "" <==> parts == [])
  {
    if |parts| == 1 {
      PiecesClean(parts[0]);
    } else if parts != [] {
      SlashedPieces(parts[1..]);
      PiecesClean(parts[0]);
      PiecesConcat(parts[0], Slashed(parts[1..]));
    } else {
      assert Pieces("") == [];
    }
  }

  // Rebuilding a parsed route and parsing again changes nothing but the raw text.
  lemma FixedPoint(prefix: string, name: string)
    requires ParseTopic(prefix, name).Some?
    ensures var r := ParseTopic(prefix, name).value;
            var again := TopicPath(prefix, r.topic, r.segments);
            ParseTopic(prefix, again) == Some(r.(raw := again))
  {
    var r := ParseTopic(prefix, name).value;
    RoundTrip(prefix, r.topic, r.segments);
    PiecesAreClean(name);
    FlatClean(r.segments);
  }

  // With the route's own prefix this holds exactly if the prefix is not made of slashes only:
  // otherwise the route's prefix is empty and nothing parses under it.
  lemma FixedPointOwnPrefix(prefix: string, name: string)
    requires ParseTopic(prefix, name).Some?
    ensures var r := ParseTopic(prefix, name).value;
            var again := TopicPath(r.prefix, r.topic, r.segments);
            ParseTopic(r.prefix, again) == Some(r.(raw := again)) <==> exists i :: 0 <= i < |prefix| && prefix[i] != '/'
  {
    var r := ParseTopic(prefix, name).value;
    var head := Pieces(prefix);
    PiecesAreClean(prefix);
    SlashedPieces(head);
    OnlySlashes(prefix);
    if head != [] {
      RoundTrip(r.prefix, r.topic, r.segments);
      PiecesAreClean(name);
      FlatClean(r.segments);
    }
  }

  lemma {:induction false} OnlySlashes(s: string)
    ensures Pieces(s) == [] <==> forall i :: 0 <= i < |s| ==> s[i] == '/'
  {
    if s != [] {
      OnlySlashes(s[1..]);
      if s[0] == '/' {
        PiecesConcat("", s[1..]);
        assert "" + "/" + s[1..] == s && Pieces("") == [];
        assert forall i :: 1 <= i < |s| ==> s[i] == s[1..][i - 1];
      }
    }
  }

  // ---- The printed name itself ----

  // On trimmed parts the joiner is the slash-join.
  lemma {:induction false} JoinIsSlashed(path: string, parts: seq<string>)
    requires Trimmed(path) && forall p :: p in parts ==> Trimmed(p)
    ensures JoinOnto(path, parts) == Slashed([path] + parts)
    decreases |parts|
  {
    if parts != [] {
      var next := path + "/" + parts[0];
      assert parts[0] in parts && next[|next| - 1] == parts[0][|parts[0]| - 1];
      JoinIsSlashed(next, parts[1..]);
      assert ([path] + parts)[1..] == parts;
      if |parts| == 1 {
        assert [next] + parts[1..] == [next];
      } else {
        assert ([next] + parts[1..])[1..] == parts[1..];
        assert next + "/" + Slashed(parts[1..]) == path + "/" + (parts[0] + "/" + Slashed(parts[1..]));
      }
    } else {
      assert [path] + parts == [path];
    }
  }

  // A printed name is the slash-join of its parts, each stripped of slashes and the empty ones left
  // out; it neither starts nor ends with a slash.
  lemma PrintedName(prefix: string, topic: string, segments: seq<string>)
    requires Pieces(topic) != []
    ensures var name := TopicPath(prefix, topic, segments);
            name == Slashed(NonEmpty(Stripped([prefix, topic] + segments))) && Trimmed(name)
  {
    var all := [prefix, topic] + segments;
    StrippedParts(all);
    PrintedPieces(prefix, topic, segments);
    var parts := NonEmpty(Stripped(all));
    assert parts[0] in parts && forall p :: p in parts[1..] ==> p in parts;
    JoinIsSlashed(parts[0], parts[1..]);
    assert [parts[0]] + parts[1..] == parts;
    JoinTrimmed(parts[0], parts[1..]);
  }

  lemma {:induction false} JoinTrimmed(path: string, parts: seq<string>)
    requires Trimmed(path) && forall p :: p in parts ==> Trimmed(p)
    ensures Trimmed(JoinOnto(path, parts))
    decreases |parts|
  {
    if parts != [] {
      var next := path + "/" + parts[0];
      assert parts[0] in parts && next[|next| - 1] == parts[0][|parts[0]| - 1] && next[0] == path[0];
      JoinTrimmed(next, parts[1..]);
    }
  }

  lemma {:induction false} SplitJoin(s: string)
    ensures Slashed(Split(s)) == s
  {
    if s != [] {
      hide Split;
      SplitStep(s);
      SplitJoin(s[1..]);
      var rest := Split(s[1..]);
      assert Split(s)[1..] == if s[0] == '/' then rest else rest[1..];
    } else {
      SplitStep(s);
    }
  }

  lemma {:induction false} AllNonEmpty(parts: seq<string>)
    requires "" !in parts
    ensures NonEmpty(parts) == parts
  {
    if parts != [] {
      AllNonEmpty(parts[1..]);
    }
  }

  lemma {:induction false} SplitSlashed(parts: seq<string>)
    requires parts != [] && forall p :: p in parts ==> Clean(p)
    ensures Split(Slashed(parts)) == parts
  {
    PiecesClean(parts[0]);
    if |parts| > 1 {
      SplitSlashed(parts[1..]);
      SplitConcat(parts[0], Slashed(parts[1..]));
      assert parts == [parts[0]] + parts[1..];
    }
  }

  // It equals the slash-join of its pieces exactly if no part has two slashes in a row inside.
  lemma NormalIff(prefix: string, topic: string, segments: seq<string>)
    requires Pieces(topic) != []
    ensures var name := TopicPath(prefix, topic, segments);
            name == Slashed(Pieces(prefix) + Pieces(topic) + Flat(segments)) <==> "" !in Split(name)
  {
    var name := TopicPath(prefix, topic, segments);
    PrintedPieces(prefix, topic, segments);
    PiecesAreClean(name);
    SplitJoin(name);
    if "" !in Split(name) {
      AllNonEmpty(Split(name));
    } else {
      SplitSlashed(Pieces(name));
      NonEmptyIn(Split(name));
    }
  }
}
