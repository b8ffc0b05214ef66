/** The `name:host:port,...` cluster specification: the parser, and the printer it inverts. */
module ClusterSpec {
  import opened Base
  import opened Text
  import opened ClusterHealth

  function Endpoint(host: string, port: string): string { host + ":" + port }

  /** What one comma-separated piece contributes: nothing, or an endpoint of a named cluster. */
  function Piece(piece: string): Option<(string, string)> {
    var parts := Split(Trim(piece), ':');
    if Trim(piece) != "" && |parts| >= 3 then Some((parts[0], Endpoint(parts[1], parts[2]))) else None
  }

  /** The endpoints the pieces list for one name, in order. */
  function EndpointsOf(pieces: seq<string>, name: string): seq<string> {
    if pieces == [] then []
    else
      var before, p := EndpointsOf(pieces[..|pieces| - 1], name), Piece(pieces[|pieces| - 1]);
      if p.Some? && p.value.0 == name then before + [p.value.1] else before
  }

  /** `m` maps exactly the names some piece lists, each to its endpoints, freshly initialised. */
  ghost predicate Collects(m: map<Name, Cluster>, pieces: seq<string>) {
    && (forall n :: n in m <==> EndpointsOf(pieces, n.text) != [])
    && (forall n :: n in m ==> m[n] == Fresh(n, EndpointsOf(pieces, n.text)))
  }

  lemma CollectNext(m: map<Name, Cluster>, pieces: seq<string>, p: string)
    requires Collects(m, pieces)
    ensures Piece(p) == None ==> Collects(m, pieces + [p])
    ensures Piece(p).Some? ==>
      var (name, endpoint) := Piece(p).value;
      var c := if Name(name) in m then m[Name(name)] else Fresh(Name(name), []);
      Collects(m[Name(name) := c.(endpoints := c.endpoints + [endpoint])], pieces + [p])
  {
    assert (pieces + [p])[..|pieces|] == pieces;
  }

  method ParseClusters(spec: string) returns (clusters: map<Name, Cluster>)
    ensures Collects(clusters, Split(spec, ','))
    ensures forall n :: n in clusters ==>
      clusters[n].endpoints != [] && clusters[n].status == Unknown && clusters[n].failures == 0
  {
    clusters := map[];
    var triples := Split(spec, ',');
    for i := 0 to |triples|
      invariant Collects(clusters, triples[..i])
    {
      CollectNext(clusters, triples[..i], triples[i]);
      assert triples[..i] + [triples[i]] == triples[..i + 1];
      var triple := Trim(triples[i]);
      if triple == "" {
        continue;
      }
      var parts := Split(triple, ':');
      if |parts| >= 3 {
        var name := Name(parts[0]);
        if name !in clusters {
          clusters := clusters[name := Fresh(name, [])];
        }
        var c := clusters[name];
        clusters := clusters[name := c.(endpoints := c.endpoints + [parts[1] + ":" + parts[2]])];
      }
    }
    assert triples[..|triples|] == triples;
  }

  // ---------------------------------------------------------------- printing

  /** A piece of a specification: its colon-separated parts, with white space around the whole. */
  datatype Item = Item(before: string, parts: seq<string>, after: string)

  ghost predicate Clean(x: Item) {
    && Blank(x.before) && Blank(x.after) && x.parts != []
    && (forall p :: p in x.parts ==> ':' !in p && ',' !in p)
    && Trimmed(Join(x.parts, ':'))
  }

  function Print(x: Item): string { x.before + Join(x.parts, ':') + x.after }

  function PrintAll(xs: seq<Item>): seq<string> {
    if xs == [] then [] else PrintAll(xs[..|xs| - 1]) + [Print(xs[|xs| - 1])]
  }

  function Render(xs: seq<Item>): string { Join(PrintAll(xs), ',') }

  /** The endpoints of a name: host and port of its items of three parts or more, whatever comes after. */
  function Listed(xs: seq<Item>, name: string): seq<string> {
    if xs == [] then []
    else
      var before, x := Listed(xs[..|xs| - 1], name), xs[|xs| - 1];
      if |x.parts| >= 3 && x.parts[0] == name then before + [x.parts[1] + ":" + x.parts[2]] else before
  }

  lemma {:induction false} JoinMembers(parts: seq<string>, sep: char)
    ensures forall c :: c in Join(parts, sep) ==> c == sep || exists p :: p in parts && c in p
    ensures |parts| >= 2 ==> Join(parts, sep) != ""
  {
    if |parts| >= 2 {
      JoinMembers(parts[1..], sep);
      forall c | c in Join(parts, sep) ensures c == sep || exists p :: p in parts && c in p {
        if c in parts[0] {
          assert parts[0] in parts;
        } else if c in Join(parts[1..], sep) && c != sep {
          var p :| p in parts[1..] && c in p;
          assert p in parts;
        }
      }
    }
  }

  lemma PieceOfPrint(x: Item)
    requires Clean(x)
    ensures Piece(Print(x)) ==
      if |x.parts| >= 3 then Some((x.parts[0], x.parts[1] + ":" + x.parts[2])) else None
    ensures ',' !in Print(x)
  {
    TrimSurrounded(x.before, Join(x.parts, ':'), x.after);
    SplitJoin(x.parts, ':');
    JoinMembers(x.parts, ':');
  }

  lemma {:induction false} PiecesOfPrint(xs: seq<Item>, name: string)
    requires forall x :: x in xs ==> Clean(x)
    ensures EndpointsOf(PrintAll(xs), name) == Listed(xs, name)
    ensures |PrintAll(xs)| == |xs| && forall p :: p in PrintAll(xs) ==> ',' !in p
  {
    if xs != [] {
      var before, x := xs[..|xs| - 1], xs[|xs| - 1];
      assert x in xs;
      PiecesOfPrint(before, name);
      PieceOfPrint(x);
      assert PrintAll(xs)[..|xs| - 1] == PrintAll(before);
    }
  }

  /**
   * Parsing inverts printing: from the text of any list of items, white space around them included,
   * any parse result maps exactly the names of the items of three parts or more, each to its
   * endpoints in list order.
   */
  lemma ParseInvertsRender(xs: seq<Item>, m: map<Name, Cluster>, name: string)
    requires forall x :: x in xs ==> Clean(x)
    requires Collects(m, Split(Render(xs), ','))
    ensures Name(name) in m <==> Listed(xs, name) != []
    ensures Name(name) in m ==> m[Name(name)] == Fresh(Name(name), Listed(xs, name))
  {
    PiecesOfPrint(xs, name);
    if xs == [] {
      assert Split("", ',') == [""] && Piece("") == None;
      assert [""][..0] == [];
      assert EndpointsOf([""], name) == [];
    } else {
      SplitJoin(PrintAll(xs), ',');
    }
  }
}
