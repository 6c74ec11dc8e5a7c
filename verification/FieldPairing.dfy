/**
 * Two-field extraction (internal/freeproxy/sources.go): the texts under one name and the texts under another
 * are collected separately and paired by rank. When does rank pairing keep the elements together?
 */
module FieldPairing {
  import opened JsonPath
  import opened Sequences

  // ----- The texts below a list of elements -----

  /** The field f of a node, if it has one. */
  function FieldOf(j: Json, f: string): seq<Json> {
    if j.Object? && f in j.fields then [j.fields[f]] else []
  }

  function FieldGetter(f: string): Json -> seq<Json> {
    j => FieldOf(j, f)
  }

  lemma {:induction false} NodesSnoc(j: Json, pre: seq<string>, f: string)
    requires f != STAR
    ensures Nodes(j, pre + [f]) == FlatMap(FieldGetter(f), Nodes(j, pre))
    decreases |pre|, 0, 0
  {
    if pre == [] {
      assert pre + [f] == [f] && [f][1..] == [];
      assert [j][..0] == [];
      assert FlatMap(FieldGetter(f), [j]) == Nodes(j, [f]);
    } else {
      assert (pre + [f])[1..] == pre[1..] + [f];
      if pre[0] == STAR {
        if j.Array? {
          NodesOfAllSnoc(j.items, pre[1..], f);
        }
      } else if j.Object? && pre[0] in j.fields {
        NodesSnoc(j.fields[pre[0]], pre[1..], f);
      }
    }
  }

  lemma {:induction false} NodesOfAllSnoc(items: seq<Json>, pre: seq<string>, f: string)
    requires f != STAR
    ensures NodesOfAll(items, pre + [f]) == FlatMap(FieldGetter(f), NodesOfAll(items, pre))
    decreases |pre|, 1, |items|
  {
    if items != [] {
      var n := |items| - 1;
      NodesOfAllSnoc(items[..n], pre, f);
      NodesSnoc(items[n], pre, f);
      FlatMapAppend(FieldGetter(f), NodesOfAll(items[..n], pre), Nodes(items[n], pre));
    }
  }

  lemma {:induction false} NodesOfItems(items: seq<Json>)
    ensures NodesOfAll(items, []) == items
  {
    if items != [] {
      NodesOfItems(items[..|items| - 1]);
    }
  }

  /** The texts that element n yields under f. */
  function TextsUnder(n: Json, f: string): seq<string> {
    FlatMap(Yield, FieldOf(n, f))
  }

  function AllTexts(nodes: seq<Json>, f: string): seq<string> {
    if nodes == [] then [] else AllTexts(nodes[..|nodes| - 1], f) + TextsUnder(nodes[|nodes| - 1], f)
  }

  lemma {:induction false} FlatMapTwice(nodes: seq<Json>, f: string)
    ensures FlatMap(Yield, FlatMap(FieldGetter(f), nodes)) == AllTexts(nodes, f)
  {
    if nodes != [] {
      var n := |nodes| - 1;
      FlatMapTwice(nodes[..n], f);
      FlatMapAppend(Yield, FlatMap(FieldGetter(f), nodes[..n]), FieldOf(nodes[n], f));
    }
  }

  /** What a path ending in a name yields is what the elements before that name yield under it, in order. */
  lemma EvalIsAllTexts(data: Json, pre: seq<string>, f: string)
    requires f != STAR
    ensures Eval(data, pre + [f]) == AllTexts(Nodes(data, pre), f)
  {
    NodesSnoc(data, pre, f);
    FlatMapTwice(Nodes(data, pre), f);
  }

  // ----- Which element a text comes from -----

  function WithLabel(i: nat, texts: seq<string>): (l: seq<(nat, string)>)
    ensures |l| == |texts| && forall k | 0 <= k < |l| :: l[k] == (i, texts[k])
  {
    seq(|texts|, k requires 0 <= k < |texts| => (i, texts[k]))
  }

  /** The same texts, each with the index of its element. */
  function Labelled(nodes: seq<Json>, f: string): seq<(nat, string)> {
    if nodes == [] then []
    else Labelled(nodes[..|nodes| - 1], f) + WithLabel(|nodes| - 1, TextsUnder(nodes[|nodes| - 1], f))
  }

  /** Each text of the flat list, in order, with the element that yields it. */
  lemma {:induction false} LabelledMeaning(nodes: seq<Json>, f: string)
    ensures |Labelled(nodes, f)| == |AllTexts(nodes, f)|
    ensures forall r | 0 <= r < |Labelled(nodes, f)| :: Labelled(nodes, f)[r].1 == AllTexts(nodes, f)[r]
    ensures forall r | 0 <= r < |Labelled(nodes, f)| ::
              var (i, text) := Labelled(nodes, f)[r]; i < |nodes| && text in TextsUnder(nodes[i], f)
    ensures forall r, q | 0 <= r < q < |Labelled(nodes, f)| :: Labelled(nodes, f)[r].0 <= Labelled(nodes, f)[q].0
  {
    if nodes != [] {
      var m := |nodes| - 1;
      LabelledMeaning(nodes[..m], f);
      hide AllTexts, TextsUnder;
    }
  }

  /** At every rank, the two texts that are joined come from one element. */
  predicate OwnPairs(nodes: seq<Json>, ip: string, port: string) {
    forall r | 0 <= r < |Labelled(nodes, ip)| && r < |Labelled(nodes, port)| ::
      Labelled(nodes, ip)[r].0 == Labelled(nodes, port)[r].0
  }

  /** The pairs that each element makes of its own texts, in order. */
  function OwnTextPairs(nodes: seq<Json>, ip: string, port: string): seq<string> {
    if nodes == [] then []
    else
      var n := nodes[|nodes| - 1];
      OwnTextPairs(nodes[..|nodes| - 1], ip, port) + Pairs(TextsUnder(n, ip), TextsUnder(n, port))
  }

  // ----- The exact condition -----

  function TextCount(n: Json, f: string): nat {
    |TextsUnder(n, f)|
  }

  /** The first element with a different number of texts under the two names, or the number of elements. */
  function FirstUnequal(nodes: seq<Json>, ip: string, port: string): (i: nat)
    ensures i <= |nodes|
    ensures forall k | 0 <= k < i :: TextCount(nodes[k], ip) == TextCount(nodes[k], port)
    ensures i < |nodes| ==> TextCount(nodes[i], ip) != TextCount(nodes[i], port)
  {
    if nodes == [] then 0
    else
      var m := |nodes| - 1;
      var i := FirstUnequal(nodes[..m], ip, port);
      assert forall k | 0 <= k < m :: nodes[..m][k] == nodes[k];
      if i < m then i else if TextCount(nodes[m], ip) == TextCount(nodes[m], port) then m + 1 else m
  }

  /** After the first element with different numbers, the name with fewer texts has none any more. */
  predicate InStep(nodes: seq<Json>, ip: string, port: string) {
    var i := FirstUnequal(nodes, ip, port);
    forall j | i < j < |nodes| ::
      && (TextCount(nodes[i], ip) < TextCount(nodes[i], port) ==> TextCount(nodes[j], ip) == 0)
      && (TextCount(nodes[i], port) < TextCount(nodes[i], ip) ==> TextCount(nodes[j], port) == 0)
  }

  /** How the last element m enters the condition. */
  lemma InStepSnoc(nodes: seq<Json>, ip: string, port: string)
    requires nodes != []
    ensures var m := |nodes| - 1;
            var i := FirstUnequal(nodes[..m], ip, port);
            InStep(nodes, ip, port) <==>
              && InStep(nodes[..m], ip, port)
              && (i < m ==>
                    && (TextCount(nodes[i], ip) < TextCount(nodes[i], port) ==> TextCount(nodes[m], ip) == 0)
                    && (TextCount(nodes[i], port) < TextCount(nodes[i], ip) ==> TextCount(nodes[m], port) == 0))
  {
    var m := |nodes| - 1;
    hide TextCount;
    assert forall k | 0 <= k < m :: nodes[..m][k] == nodes[k];
  }

  /** Which of the two lists is longer is decided by the first unequal element. */
  lemma {:induction false} LengthsOf(nodes: seq<Json>, ip: string, port: string)
    requires InStep(nodes, ip, port)
    ensures var i := FirstUnequal(nodes, ip, port);
            var a, b := |Labelled(nodes, ip)|, |Labelled(nodes, port)|;
            if i == |nodes| then a == b
            else a < b <==> TextCount(nodes[i], ip) < TextCount(nodes[i], port)
    ensures FirstUnequal(nodes, ip, port) < |nodes| ==> |Labelled(nodes, ip)| != |Labelled(nodes, port)|
  {
    if nodes != [] {
      InStepSnoc(nodes, ip, port);
      LengthsOf(nodes[..|nodes| - 1], ip, port);
    }
  }

  predicate SameLabels(a: seq<(nat, string)>, b: seq<(nat, string)>) {
    forall r | 0 <= r < |a| && r < |b| :: a[r].0 == b[r].0
  }

  lemma OwnPairsOfSums(
    a: seq<(nat, string)>, x: seq<(nat, string)>, b: seq<(nat, string)>, y: seq<(nat, string)>, m: nat)
    requires forall r | 0 <= r < |a| :: a[r].0 < m
    requires forall r | 0 <= r < |b| :: b[r].0 < m
    requires forall r | 0 <= r < |x| :: x[r].0 == m
    requires forall r | 0 <= r < |y| :: y[r].0 == m
    ensures SameLabels(a + x, b + y) <==>
            SameLabels(a, b) && (|a| < |b| ==> |x| == 0) && (|b| < |a| ==> |y| == 0)
  {
    assert forall r | 0 <= r < |a| :: (a + x)[r] == a[r];
    assert forall r | 0 <= r < |b| :: (b + y)[r] == b[r];
    if |a| < |b| && |x| > 0 {
      assert (a + x)[|a|] == x[0] && (b + y)[|a|] == b[|a|];
    }
    if |b| < |a| && |y| > 0 {
      assert (b + y)[|b|] == y[0] && (a + x)[|b|] == a[|b|];
    }
  }

  /** How the last element enters the pairing. */
  lemma OwnPairsSnoc(nodes: seq<Json>, ip: string, port: string)
    requires nodes != []
    ensures var m := |nodes| - 1;
            var a, b := |Labelled(nodes[..m], ip)|, |Labelled(nodes[..m], port)|;
            OwnPairs(nodes, ip, port) <==>
              && OwnPairs(nodes[..m], ip, port)
              && (a < b ==> TextCount(nodes[m], ip) == 0) && (b < a ==> TextCount(nodes[m], port) == 0)
  {
    var m := |nodes| - 1;
    LabelledMeaning(nodes[..m], ip);
    LabelledMeaning(nodes[..m], port);
    var a, b := Labelled(nodes[..m], ip), Labelled(nodes[..m], port);
    var x, y := WithLabel(m, TextsUnder(nodes[m], ip)), WithLabel(m, TextsUnder(nodes[m], port));
    assert Labelled(nodes, ip) == a + x && Labelled(nodes, port) == b + y;
    hide Labelled, TextsUnder;
    OwnPairsOfSums(a, x, b, y, m);
  }

  /** Rank pairing joins texts of one element at every rank exactly when the lists stay in step. */
  lemma {:induction false} PairingExact(nodes: seq<Json>, ip: string, port: string)
    ensures OwnPairs(nodes, ip, port) <==> InStep(nodes, ip, port)
  {
    if nodes != [] {
      PairingExact(nodes[..|nodes| - 1], ip, port);
      OwnPairsSnoc(nodes, ip, port);
      InStepSnoc(nodes, ip, port);
      hide OwnPairs, Labelled, TextCount;
      if InStep(nodes[..|nodes| - 1], ip, port) {
        LengthsOf(nodes[..|nodes| - 1], ip, port);
        hide InStep;
      }
    }
  }

  lemma PairsOfSums(a: seq<string>, x: seq<string>, b: seq<string>, y: seq<string>)
    requires (|a| < |b| ==> x == []) && (|b| < |a| ==> y == [])
    ensures Pairs(a + x, b + y) == Pairs(a, b) + Pairs(x, y)
  {
  }

  /** And then the output is what the elements pair up by themselves. */
  lemma {:induction false} OwnPairsAreJoined(nodes: seq<Json>, ip: string, port: string)
    requires OwnPairs(nodes, ip, port)
    ensures Pairs(AllTexts(nodes, ip), AllTexts(nodes, port)) == OwnTextPairs(nodes, ip, port)
  {
    if nodes == [] {
      assert Pairs([], []) == [];
    } else {
      var m := |nodes| - 1;
      OwnPairsSnoc(nodes, ip, port);
      OwnPairsAreJoined(nodes[..m], ip, port);
      LabelledMeaning(nodes[..m], ip);
      LabelledMeaning(nodes[..m], port);
      PairsOfSums(AllTexts(nodes[..m], ip), TextsUnder(nodes[m], ip),
                  AllTexts(nodes[..m], port), TextsUnder(nodes[m], port));
    }
  }

  // ----- Two-field paths -----

  /** Both halves of the path end in a name below the same elements. */
  predicate TwoFields(path: string, pre: seq<string>, ip: string, port: string) {
    && |SplitOn(path, ',')| == 2 && ip != STAR && port != STAR
    && Split(Trim(SplitOn(path, ',')[0])) == pre + [ip]
    && Split(Trim(SplitOn(path, ',')[1])) == pre + [port]
  }

  /** Two-field mode while the lists stay in step: every element gives the pairs of its own texts. */
  lemma InStepPairing(data: Json, path: string, source: string, pre: seq<string>, ip: string, port: string)
    requires TwoFields(path, pre, ip, port) && InStep(Nodes(data, pre), ip, port)
    ensures ByPath(data, path, source) == Entries(OwnTextPairs(Nodes(data, pre), ip, port), source)
  {
    EvalIsAllTexts(data, pre, ip);
    EvalIsAllTexts(data, pre, port);
    PairingExact(Nodes(data, pre), ip, port);
    OwnPairsAreJoined(Nodes(data, pre), ip, port);
  }

  /** The node has exactly one text under f. */
  predicate HasScalar(j: Json, f: string) {
    j.Object? && f in j.fields && (j.fields[f].Str? || j.fields[f].Number?)
  }

  function FieldText(j: Json, f: string): string
    requires HasScalar(j, f)
  {
    if j.fields[f].Str? then j.fields[f].text else j.fields[f].shown
  }

  lemma ScalarTexts(n: Json, f: string)
    requires HasScalar(n, f)
    ensures TextsUnder(n, f) == [FieldText(n, f)]
  {
    FlatMapOne(Yield, n.fields[f]);
  }

  /** One "ip:port" text for each element. */
  function Joined(nodes: seq<Json>, ip: string, port: string): (addrs: seq<string>)
    requires forall n | n in nodes :: HasScalar(n, ip) && HasScalar(n, port)
    ensures |addrs| == |nodes|
    ensures forall i | 0 <= i < |nodes| :: addrs[i] == FieldText(nodes[i], ip) + ":" + FieldText(nodes[i], port)
  {
    seq(|nodes|, i requires 0 <= i < |nodes| => FieldText(nodes[i], ip) + ":" + FieldText(nodes[i], port))
  }

  lemma OnePair(ip: string, port: string)
    ensures Pairs([ip], [port]) == [ip + ":" + port]
  {
  }

  lemma {:induction false} ScalarPairs(nodes: seq<Json>, ip: string, port: string)
    requires forall n | n in nodes :: HasScalar(n, ip) && HasScalar(n, port)
    ensures OwnTextPairs(nodes, ip, port) == Joined(nodes, ip, port)
  {
    hide HasScalar, FieldText, TextsUnder, Pairs;
    if nodes != [] {
      var m := |nodes| - 1;
      ScalarPairs(nodes[..m], ip, port);
      assert nodes[m] in nodes;
      ScalarTexts(nodes[m], ip);
      ScalarTexts(nodes[m], port);
      OnePair(FieldText(nodes[m], ip), FieldText(nodes[m], port));
      assert Joined(nodes, ip, port) == Joined(nodes[..m], ip, port) + [Joined(nodes, ip, port)[m]];
    }
  }

  /**
   * In particular, when every element has one text under each name, the output is the element-wise
   * "ip:port" list with later duplicates dropped.
   */
  lemma TwoFieldPairing(data: Json, path: string, source: string, pre: seq<string>, ip: string, port: string)
    requires TwoFields(path, pre, ip, port)
    requires forall n | n in Nodes(data, pre) :: HasScalar(n, ip) && HasScalar(n, port)
    ensures ByPath(data, path, source) == Entries(Joined(Nodes(data, pre), ip, port), source)
  {
    var nodes := Nodes(data, pre);
    forall n | n in nodes
      ensures TextCount(n, ip) == TextCount(n, port)
    {
      ScalarTexts(n, ip);
      ScalarTexts(n, port);
    }
    assert FirstUnequal(nodes, ip, port) == |nodes|;
    InStepPairing(data, path, source, pre, ip, port);
    ScalarPairs(nodes, ip, port);
  }

  // ----- Paths as the built-in sources write them -----

  lemma {:induction false} SplitOnOne(s: string, sep: char)
    requires sep !in s
    ensures SplitOn(s, sep) == [s]
  {
    if s != "" {
      assert sep !in s[1..];
      SplitOnOne(s[1..], sep);
      assert [s[0]] + s[1..] == s;
    }
  }

  lemma {:induction false} SplitOnTwo(a: string, b: string, sep: char)
    requires sep !in a && sep !in b
    ensures SplitOn(a + [sep] + b, sep) == [a, b]
  {
    var s := a + [sep] + b;
    if a == "" {
      assert s[1..] == b;
      SplitOnOne(b, sep);
    } else {
      assert s[1..] == a[1..] + [sep] + b && sep !in a[1..];
      SplitOnTwo(a[1..], b, sep);
      assert [s[0]] + a[1..] == a;
    }
  }

  /** A field name as the built-in sources use them. */
  predicate PlainName(s: string) {
    IsSegment(s) && s != STAR && ',' !in s && !IsSpace(s[0]) && !IsSpace(s[|s| - 1])
  }

  /** The text of "name[*].field". */
  function FieldPath(name: string, field: string): string {
    name + STAR + ("." + field)
  }

  lemma FieldPathSegments(name: string, field: string)
    requires PlainName(name) && PlainName(field)
    ensures ',' !in FieldPath(name, field) && Trim(FieldPath(name, field)) == FieldPath(name, field)
    ensures Split(FieldPath(name, field)) == [name, STAR] + [field]
  {
    SplitName(field);
    assert ("." + field)[1..] == field;
    SplitNameStar(name, "." + field);
    assert FieldPath(name, field)[|FieldPath(name, field)| - 1] == field[|field| - 1];
  }

  /** The same for the path text "list[*].ip,list[*].port" over an object that holds the list. */
  lemma BuiltinPathPairing(fields: map<string, Json>, list: string, ip: string, port: string, source: string)
    requires PlainName(list) && PlainName(ip) && PlainName(port)
    requires list in fields && fields[list].Array?
    requires forall n | n in fields[list].items :: HasScalar(n, ip) && HasScalar(n, port)
    ensures ByPath(Object(fields), FieldPath(list, ip) + "," + FieldPath(list, port), source)
            == Entries(Joined(fields[list].items, ip, port), source)
  {
    var data, items, pre := Object(fields), fields[list].items, [list, STAR];
    FieldPathSegments(list, ip);
    FieldPathSegments(list, port);
    SplitOnTwo(FieldPath(list, ip), FieldPath(list, port), ',');
    NodesOfItems(items);
    assert pre[1..] == [STAR] && [STAR][1..] == [];
    assert Nodes(data, pre) == Nodes(fields[list], [STAR]) == items;
    TwoFieldPairing(data, FieldPath(list, ip) + "," + FieldPath(list, port), source, pre, ip, port);
  }

  /** The text of "[*].field". */
  function RootPath(field: string): string {
    STAR + ("." + field)
  }

  lemma RootPathSegments(field: string)
    requires PlainName(field)
    ensures ',' !in RootPath(field) && Trim(RootPath(field)) == RootPath(field)
    ensures Split(RootPath(field)) == [STAR] + [field]
  {
    SplitName(field);
    assert ("." + field)[1..] == field;
    SplitStar("." + field);
    assert RootPath(field)[|RootPath(field)| - 1] == field[|field| - 1];
  }

  lemma RootPathPair(ip: string, port: string)
    requires PlainName(ip) && PlainName(port)
    ensures TwoFields(RootPath(ip) + "," + RootPath(port), [STAR], ip, port)
  {
    RootPathSegments(ip);
    RootPathSegments(port);
    SplitOnTwo(RootPath(ip), RootPath(port), ',');
  }

  lemma AllTextsOfTwo(a: Json, b: Json, f: string)
    ensures AllTexts([a, b], f) == TextsUnder(a, f) + TextsUnder(b, f)
  {
    assert [a, b][..1] == [a] && [a][..0] == [];
    assert AllTexts([a], f) == [] + TextsUnder(a, f);
  }

  lemma OneEntry(addr: string, source: string)
    ensures Entries([addr], source) == [ProxyEntry(addr, "http", source)]
  {
    EntriesSnoc([], addr, source);
    assert [] + [addr] == [addr];
  }

  /** The path "[*].ip,[*].port" over an array. */
  lemma RootPathPairs(items: seq<Json>, ip: string, port: string, source: string)
    requires PlainName(ip) && PlainName(port)
    ensures ByPath(Array(items), RootPath(ip) + "," + RootPath(port), source)
            == Entries(Pairs(AllTexts(items, ip), AllTexts(items, port)), source)
  {
    RootPathPair(ip, port);
    NodesOfItems(items);
    assert [STAR][1..] == [] && Nodes(Array(items), [STAR]) == items;
    EvalIsAllTexts(Array(items), [STAR], ip);
    EvalIsAllTexts(Array(items), [STAR], port);
  }

  lemma MissingPortTexts(first: Json, second: Json, ip: string, port: string)
    requires HasScalar(first, ip) && HasScalar(second, ip) && HasScalar(second, port)
    requires first.Object? && port !in first.fields
    ensures !InStep([first, second], ip, port)
    ensures AllTexts([first, second], ip) == [FieldText(first, ip), FieldText(second, ip)]
    ensures AllTexts([first, second], port) == [FieldText(second, port)]
  {
    var items := [first, second];
    ScalarTexts(first, ip);
    ScalarTexts(second, ip);
    ScalarTexts(second, port);
    assert TextsUnder(first, port) == [];
    hide TextsUnder, FieldText, HasScalar, AllTexts;
    AllTextsOfTwo(first, second, ip);
    AllTextsOfTwo(first, second, port);
    assert FirstUnequal(items, ip, port) == 0;
  }

  /** The lists get out of step when an element has no port: it is given the port of the next one. */
  lemma MissingPortMispairs(first: Json, second: Json, ip: string, port: string, source: string)
    requires PlainName(ip) && PlainName(port)
    requires HasScalar(first, ip) && HasScalar(second, ip) && HasScalar(second, port)
    requires first.Object? && port !in first.fields
    ensures !InStep([first, second], ip, port)
    ensures ByPath(Array([first, second]), RootPath(ip) + "," + RootPath(port), source)
            == [ProxyEntry(FieldText(first, ip) + ":" + FieldText(second, port), "http", source)]
  {
    MissingPortTexts(first, second, ip, port);
    RootPathPairs([first, second], ip, port, source);
    hide AllTexts, PlainName, RootPath, ByPath, Entries, InStep, FieldText, HasScalar;
    var a, b, c := FieldText(first, ip), FieldText(second, ip), FieldText(second, port);
    assert Pairs([a, b], [c]) == [a + ":" + c];
    OneEntry(a + ":" + c, source);
  }
}
