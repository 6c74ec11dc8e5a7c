/**
 * The JSON path extractor of internal/freeproxy/sources.go: splitPath, extractField,
 * extractByPath and the de-duplication of parseText.
 */
module JsonPath {
  import opened Sequences

  /** Parsed JSON. A number carries the text that the "%.0f" format gives it. */
  datatype Json =
    | Null
    | Bool(b: bool)
    | Number(shown: string)
    | Str(text: string)
    | Array(items: seq<Json>)
    | Object(fields: map<string, Json>)

  const STAR: string := "[*]"

  // ----- Paths and their segments -----

  function Flush(current: string): seq<string> {
    if current == "" then [] else [current]
  }

  /** Splits rest, with current the segment under way. */
  function SplitFrom(current: string, rest: string): seq<string>
    decreases |rest|
  {
    if rest == "" then Flush(current)
    else if rest[0] == '.' then Flush(current) + SplitFrom("", rest[1..])
    else if STAR <= rest then Flush(current) + [STAR] + SplitFrom("", rest[3..])
    else SplitFrom(current + [rest[0]], rest[1..])
  }

  function Split(path: string): seq<string> {
    SplitFrom("", path)
  }

  /** One step of the splitter after the segments done, in terms of positions in the path. */
  lemma SplitStep(path: string, start: nat, i: nat, done: seq<string>)
    requires start <= i < |path|
    ensures i + 3 <= |path| ==> (path[i..i + 3] == STAR <==> STAR <= path[i..])
    ensures path[i] == '.' ==>
              done + SplitFrom(path[start..i], path[i..]) == done + Flush(path[start..i]) + SplitFrom("", path[i + 1..])
    ensures STAR <= path[i..] ==> path[i] == '[' && i + 3 <= |path|
    ensures STAR <= path[i..] ==>
              done + SplitFrom(path[start..i], path[i..]) ==
              done + Flush(path[start..i]) + [STAR] + SplitFrom("", path[i + 3..])
    ensures path[i] != '.' && !(STAR <= path[i..]) ==>
              SplitFrom(path[start..i], path[i..]) == SplitFrom(path[start..i + 1], path[i + 1..])
  {
    var rest, flushed := path[i..], Flush(path[start..i]);
    assert rest[1..] == path[i + 1..];
    assert i + 3 <= |path| ==> path[i..i + 3] == rest[..3] && rest[3..] == path[i + 3..];
    assert path[start..i] + [rest[0]] == path[start..i + 1];
    if path[i] == '.' {
      Associative(done, flushed, SplitFrom("", path[i + 1..]));
    } else if STAR <= rest {
      Associative(done, flushed, [STAR]);
      Associative(done, flushed + [STAR], SplitFrom("", path[i + 3..]));
    }
  }

  method SplitPath(path: string) returns (segments: seq<string>)
    ensures segments == Split(path)
  {
    segments := [];
    var start, i := 0, 0;
    assert path[0..] == path && path[0..0] == "";
    while i < |path|
      invariant 0 <= start <= i <= |path|
      invariant segments + SplitFrom(path[start..i], path[i..]) == Split(path)
    {
      SplitStep(path, start, i, segments);
      if path[i] == '.' {
        ghost var flushed := segments + Flush(path[start..i]);
        if i > start {
          segments := segments + [path[start..i]];
        }
        assert segments == flushed;
        start := i + 1;
        i := i + 1;
        assert path[start..i] == "";
      } else if path[i] == '[' && i + 2 < |path| && path[i..i + 3] == STAR {
        ghost var flushed := segments + Flush(path[start..i]);
        if i > start {
          segments := segments + [path[start..i]];
        }
        assert segments == flushed;
        segments := segments + [STAR];
        start := i + 3;
        i := start;
        assert path[start..i] == "";
      } else {
        i := i + 1;
      }
    }
    assert path[i..] == "" && path[start..i] == path[start..];
    if start < |path| {
      segments := segments + [path[start..]];
    }
  }

  predicate StarWithin(s: string) {
    exists k :: 0 <= k <= |s| && STAR <= s[k..]
  }

  /** What a segment can be: "[*]", or a non-empty name without dots or stars. */
  predicate IsSegment(s: string) {
    s != "" && '.' !in s && (s == STAR || !StarWithin(s))
  }

  /** The text strings.Join(segments, ".") builds. */
  function Join(segments: seq<string>): string {
    if |segments| == 0 then ""
    else if |segments| == 1 then segments[0]
    else segments[0] + "." + Join(segments[1..])
  }

  lemma {:induction false} SplitFromSegments(current: string, rest: string)
    requires '.' !in current
    requires forall k | 0 <= k < |current| :: !(STAR <= (current + rest)[k..])
    ensures forall s | s in SplitFrom(current, rest) :: IsSegment(s)
    decreases |rest|
  {
    forall k | 0 <= k <= |current|
      ensures !(STAR <= current[k..])
    {
      assert (current + rest)[k..] == current[k..] + rest;
    }
    if rest == "" {
    } else if rest[0] == '.' {
      SplitFromSegments("", rest[1..]);
    } else if STAR <= rest {
      SplitFromSegments("", rest[3..]);
    } else {
      assert (current + [rest[0]]) + rest[1..] == current + rest;
      assert (current + rest)[|current|..] == rest;
      SplitFromSegments(current + [rest[0]], rest[1..]);
    }
  }

  /** Splitting yields segments only. */
  lemma SplitYieldsSegments(path: string)
    ensures forall s | s in Split(path) :: IsSegment(s)
  {
    SplitFromSegments("", path);
  }

  /** No star begins inside a name and ends outside it. */
  lemma NoStarAcross(name: string, tail: string)
    requires name != "" && !StarWithin(name)
    requires tail == "" || tail[0] == '.' || STAR <= tail
    ensures !(STAR <= name + tail)
  {
    var rest := name + tail;
    assert name[0..] == name;
    if |name| >= 3 {
      assert rest[..3] == name[..3];
    } else if tail != "" {
      assert rest[|name|] == tail[0] != STAR[|name|];
    }
  }

  /** Scanning a name: the splitter walks over it until the dot or the end. */
  lemma {:induction false} ScanName(current: string, name: string, tail: string)
    requires '.' !in name && !StarWithin(name)
    requires tail == "" || tail[0] == '.' || STAR <= tail
    ensures SplitFrom(current, name + tail) == SplitFrom(current + name, tail)
    decreases |name|
  {
    if name == "" {
      assert name + tail == tail && current + name == current;
    } else {
      var rest := name + tail;
      assert rest[0] == name[0] && rest[1..] == name[1..] + tail;
      assert !(STAR <= rest) by { NoStarAcross(name, tail); }
      forall k | 0 <= k <= |name[1..]|
        ensures !(STAR <= name[1..][k..])
      {
        assert name[1..][k..] == name[k + 1..];
      }
      ScanName(current + [name[0]], name[1..], tail);
      assert current + [name[0]] + name[1..] == current + name;
    }
  }

  /** A segment before a dot or the end is split off. */
  lemma SplitHead(head: string, tail: string)
    requires IsSegment(head) && (tail == "" || tail[0] == '.')
    ensures Split(head + tail) == [head] + SplitFrom("", tail)
  {
    if head == STAR {
      assert STAR <= head + tail && (head + tail)[3..] == tail && (head + tail)[0] == '[';
    } else {
      ScanName("", head, tail);
      assert "" + head == head;
      assert SplitFrom(head, tail) == [head] + SplitFrom("", tail);
    }
  }

  /** Joining segments with dots and splitting again gives the same segments. */
  lemma {:induction false} SplitJoin(segments: seq<string>)
    requires forall s | s in segments :: IsSegment(s)
    ensures Split(Join(segments)) == segments
  {
    hide IsSegment;
    if segments != [] {
      var head, rest := segments[0], segments[1..];
      var tail := if rest == [] then "" else "." + Join(rest);
      SplitJoin(rest);
      SplitHead(head, tail);
      assert Join(segments) == head + tail;
      assert rest != [] ==> tail[1..] == Join(rest);
      assert SplitFrom("", tail) == rest;
    }
  }

  /** A star at the front is one segment. */
  lemma SplitStar(tail: string)
    ensures Split(STAR + tail) == [STAR] + Split(tail)
  {
  }

  /** A name before a star is one segment, and so is the star. */
  lemma SplitNameStar(name: string, tail: string)
    requires IsSegment(name) && name != STAR
    ensures Split(name + STAR + tail) == [name, STAR] + Split(tail)
  {
    var rest := STAR + tail;
    assert rest[0] == '[' && rest[..3] == STAR && rest[3..] == tail;
    assert name + STAR + tail == name + rest && "" + name == name;
    ScanName("", name, rest);
  }

  /** A name alone is one segment. */
  lemma SplitName(name: string)
    requires IsSegment(name) && name != STAR
    ensures Split(name) == [name]
  {
    assert name + "" == name && "" + name == name;
    ScanName("", name, "");
  }

  /** A re-joined path can be longer than the path it came from, so its length is no termination measure. */
  lemma RejoiningGrows(a: string, b: string, c: string)
    requires forall s | s in {a, b, c} :: IsSegment(s) && s != STAR
    ensures var path := STAR + (a + STAR + (b + STAR + c));
            Split(path) == [STAR, a, STAR, b, STAR, c] && |Join(Split(path)[1..])| == |path| + 1
  {
    SplitName(c);
    SplitNameStar(b, c);
    SplitNameStar(a, b + STAR + c);
    SplitStar(a + STAR + (b + STAR + c));
    var rest := [a, STAR, b, STAR, c];
    assert Split(STAR + (a + STAR + (b + STAR + c)))[1..] == rest;
    assert rest[1..] == [STAR, b, STAR, c] && rest[1..][1..] == [b, STAR, c];
    assert rest[1..][1..][1..] == [STAR, c] && rest[1..][1..][1..][1..] == [c];
    assert |Join([STAR, c])| == |c| + 4;
    assert |Join([b, STAR, c])| == |b| + |c| + 5;
    assert |Join([STAR, b, STAR, c])| == |b| + |c| + 9;
  }

  // ----- Meaning of a path -----

  /** The text of a string or number; other values have none. */
  function Scalar(j: Json): seq<string> {
    match j
    case Str(s) => [s]
    case Number(s) => [s]
    case _ => []
  }

  /** What a path that ends at this value yields: its text, or the texts directly in the array. */
  function Yield(j: Json): seq<string> {
    if j.Array? then FlatMap(Scalar, j.items) else Scalar(j)
  }

  /** The values a segment list reaches, in document order. */
  function Nodes(j: Json, segments: seq<string>): seq<Json>
    decreases |segments|, 0, 0
  {
    if segments == [] then [j]
    else if segments[0] == STAR then if j.Array? then NodesOfAll(j.items, segments[1..]) else []
    else if j.Object? && segments[0] in j.fields then Nodes(j.fields[segments[0]], segments[1..])
    else []
  }

  function NodesOfAll(items: seq<Json>, segments: seq<string>): seq<Json>
    decreases |segments|, 1, |items|
  {
    if items == [] then [] else NodesOfAll(items[..|items| - 1], segments) + Nodes(items[|items| - 1], segments)
  }

  /** The structural meaning of a path: what its nodes yield, and nothing if it is empty or ends in "[*]". */
  function Eval(j: Json, segments: seq<string>): seq<string> {
    if segments == [] || segments[|segments| - 1] == STAR then [] else FlatMap(Yield, Nodes(j, segments))
  }

  function Evaluator(segments: seq<string>): Json -> seq<string> {
    j => Eval(j, segments)
  }

  lemma {:induction false} EvalEachIsNodes(items: seq<Json>, segments: seq<string>)
    ensures FlatMap(Evaluator(segments), items) ==
            if segments == [] || segments[|segments| - 1] == STAR then []
            else FlatMap(Yield, NodesOfAll(items, segments))
  {
    if items != [] {
      var n := |items| - 1;
      EvalEachIsNodes(items[..n], segments);
      FlatMapAppend(Yield, NodesOfAll(items[..n], segments), Nodes(items[n], segments));
    }
  }

  /** A "[*]" step yields the concatenation over the elements. */
  lemma EvalStar(j: Json, segments: seq<string>)
    requires segments != [] && segments[0] == STAR
    ensures Eval(j, segments) == if j.Array? then FlatMap(Evaluator(segments[1..]), j.items) else []
  {
    if j.Array? {
      EvalEachIsNodes(j.items, segments[1..]);
    }
  }

  /** A name step goes to the field, and a missing or null field yields nothing. */
  lemma EvalName(j: Json, segments: seq<string>)
    requires segments != [] && segments[0] != STAR
    ensures !(j.Object? && segments[0] in j.fields && !j.fields[segments[0]].Null?) ==> Eval(j, segments) == []
    ensures j.Object? && segments[0] in j.fields ==>
              Eval(j, segments) == if |segments| == 1 then Yield(j.fields[segments[0]])
                                   else Eval(j.fields[segments[0]], segments[1..])
  {
    if j.Object? && segments[0] in j.fields {
      var child := j.fields[segments[0]];
      assert |segments| > 1 ==> segments[1..][|segments[1..]| - 1] == segments[|segments| - 1];
      FlatMapOne(Yield, child);
      if |segments| == 1 {
        assert segments[1..] == [] && Nodes(j, segments) == [child];
      } else {
        assert child.Null? ==> Nodes(child, segments[1..]) == [];
      }
    }
  }

  /** The final type switch of extractField. */
  method TextsOf(current: Json) returns (values: seq<string>)
    ensures values == Yield(current)
  {
    values := [];
    match current {
      case Str(s) => values := [s];
      case Number(s) => values := [s];
      case Array(items) =>
        for k := 0 to |items|
          invariant values == FlatMap(Scalar, items[..k])
        {
          match items[k] {
            case Str(s) => values := values + [s];
            case Number(s) => values := values + [s];
            case _ =>
          }
          assert items[..k + 1][..k] == items[..k];
        }
        assert items[..|items|] == items;
      case _ =>
    }
  }

  method ExtractField(data: Json, path: string) returns (values: seq<string>)
    ensures values == Eval(data, Split(path))
    decreases |Split(path)|, 0
  {
    var segments := SplitPath(path);
    if |segments| == 0 {
      return [];
    }
    var current := data;
    var i := 0;
    while i < |segments|
      invariant 0 <= i <= |segments|
      invariant i < |segments| ==> Eval(data, segments) == Eval(current, segments[i..])
      invariant i == |segments| ==> Eval(data, segments) == Yield(current)
    {
      var segment := segments[i];
      assert segments[i..][1..] == segments[i + 1..];
      if segment == STAR {
        EvalStar(current, segments[i..]);
        if !current.Array? {
          return [];
        }
        SplitYieldsSegments(path);
        SplitJoin(segments[i + 1..]);
        values := ExtractFromEach(current.items, Join(segments[i + 1..]));
        return;
      }
      EvalName(current, segments[i..]);
      if !current.Object? || segment !in current.fields || current.fields[segment].Null? {
        return [];
      }
      current := current.fields[segment];
      i := i + 1;
    }
    values := TextsOf(current);
  }

  /** The loop over array elements, with the re-joined remaining path. */
  method ExtractFromEach(items: seq<Json>, remaining: string) returns (values: seq<string>)
    ensures values == FlatMap(Evaluator(Split(remaining)), items)
    decreases |Split(remaining)|, 1
  {
    values := [];
    for k := 0 to |items|
      invariant values == FlatMap(Evaluator(Split(remaining)), items[..k])
    {
      var more := ExtractField(items[k], remaining);
      values := values + more;
      assert items[..k + 1][..k] == items[..k];
    }
    assert items[..|items|] == items;
  }

  // ----- extractByPath and parseText -----

  datatype ProxyEntry = ProxyEntry(addr: string, kind: string, source: string)

  /** strings.Split with a one-character separator. */
  function SplitOn(s: string, sep: char): (parts: seq<string>)
    ensures |parts| >= 1
  {
    if s == "" then [""]
    else
      var rest := SplitOn(s[1..], sep);
      if s[0] == sep then [""] + rest else [[s[0]] + rest[0]] + rest[1..]
  }

  /** The white space strings.TrimSpace removes. */
  predicate IsSpace(c: char) {
    || c in "\t\n\U{b}\U{c}\r \U{85}\U{a0}\U{1680}\U{2028}\U{2029}\U{202f}\U{205f}\U{3000}"
    || '\U{2000}' <= c <= '\U{200a}'
  }

  function Trim(s: string): string {
    if s != "" && IsSpace(s[0]) then Trim(s[1..])
    else if s != "" && IsSpace(s[|s| - 1]) then Trim(s[..|s| - 1])
    else s
  }

  /** The addresses as entries of one source, each address once. */
  function Entries(addrs: seq<string>, source: string): seq<ProxyEntry> {
    Map(a => ProxyEntry(a, "http", source), FirstOccurrences(addrs))
  }

  predicate HasPort(v: string) {
    ':' in v
  }

  /** The texts of equal rank joined by a colon. */
  function Pairs(ips: seq<string>, ports: seq<string>): (addrs: seq<string>)
    ensures |addrs| == if |ips| < |ports| then |ips| else |ports|
    ensures forall i | 0 <= i < |addrs| :: addrs[i] == ips[i] + ":" + ports[i]
  {
    Map((p: (string, string)) => p.0 + ":" + p.1, Zip(ips, ports))
  }

  function ByPath(data: Json, path: string, source: string): seq<ProxyEntry> {
    var parts := SplitOn(path, ',');
    if |parts| == 2 then
      Entries(Pairs(Eval(data, Split(Trim(parts[0]))), Eval(data, Split(Trim(parts[1])))), source)
    else
      Entries(Filter(HasPort, Eval(data, Split(Trim(path)))), source)
  }

  lemma EntriesEmpty(source: string)
    ensures Entries([], source) == [] && Elements<string>([]) == {}
  {
  }

  /** One more address adds one entry, or none when it was seen. */
  lemma EntriesSnoc(addrs: seq<string>, a: string, source: string)
    ensures Elements(addrs + [a]) == Elements(addrs) + {a}
    ensures a in addrs ==> Entries(addrs + [a], source) == Entries(addrs, source)
    ensures a !in addrs ==> Entries(addrs + [a], source) == Entries(addrs, source) + [ProxyEntry(a, "http", source)]
    ensures a in addrs <==> a in Elements(addrs)
  {
  }

  /** The two-field loop: pairs up, skipping addresses already seen. */
  method PairEntries(ips: seq<string>, ports: seq<string>, source: string) returns (out: seq<ProxyEntry>)
    ensures out == Entries(Pairs(ips, ports), source)
  {
    EntriesEmpty(source);
    hide Entries, Elements, Pairs;
    ghost var addrs := Pairs(ips, ports);
    out := [];
    var seen: set<string> := {};
    var i := 0;
    while i < |ips| && i < |ports|
      invariant 0 <= i <= |addrs|
      invariant seen == Elements(addrs[..i])
      invariant out == Entries(addrs[..i], source)
    {
      var addr := ips[i] + ":" + ports[i];
      assert addrs[..i + 1] == addrs[..i] + [addr];
      EntriesSnoc(addrs[..i], addr, source);
      if addr !in seen {
        seen := seen + {addr};
        out := out + [ProxyEntry(addr, "http", source)];
      }
      i := i + 1;
    }
    assert addrs[..|addrs|] == addrs;
  }

  /** The single-field loop: keeps values with a port, skipping those already seen. */
  method AddressEntries(values: seq<string>, source: string) returns (out: seq<ProxyEntry>)
    ensures out == Entries(Filter(HasPort, values), source)
  {
    EntriesEmpty(source);
    hide Entries, Elements;
    out := [];
    var seen: set<string> := {};
    for i := 0 to |values|
      invariant seen == Elements(Filter(HasPort, values[..i]))
      invariant out == Entries(Filter(HasPort, values[..i]), source)
    {
      var v := values[i];
      ghost var kept := Filter(HasPort, values[..i]);
      assert values[..i + 1][..i] == values[..i];
      assert Filter(HasPort, values[..i + 1]) == if HasPort(v) then kept + [v] else kept + [];
      assert kept + [] == kept;
      EntriesSnoc(kept, v, source);
      if HasPort(v) && v !in seen {
        seen := seen + {v};
        out := out + [ProxyEntry(v, "http", source)];
      }
    }
    assert values[..|values|] == values;
  }

  method ExtractByPath(data: Json, path: string, source: string) returns (out: seq<ProxyEntry>)
    ensures out == ByPath(data, path, source)
  {
    var parts := SplitOn(path, ',');
    if |parts| == 2 {
      var ips := ExtractField(data, Trim(parts[0]));
      var ports := ExtractField(data, Trim(parts[1]));
      out := PairEntries(ips, ports, source);
    } else {
      var values := ExtractField(data, Trim(path));
      out := AddressEntries(values, source);
    }
  }

  /** parseText after the regular expression has produced its (host, port) matches. */
  method ParseText(matches: seq<(string, string)>, source: string) returns (out: seq<ProxyEntry>)
    ensures out == Entries(Map((m: (string, string)) => m.0 + ":" + m.1, matches), source)
  {
    ghost var addrs := Map((m: (string, string)) => m.0 + ":" + m.1, matches);
    out := [];
    var seen: set<string> := {};
    for i := 0 to |matches|
      invariant seen == Elements(addrs[..i])
      invariant out == Entries(addrs[..i], source)
    {
      var addr := matches[i].0 + ":" + matches[i].1;
      assert addrs[..i + 1] == addrs[..i] + [addr];
      EntriesSnoc(addrs[..i], addr, source);
      if addr !in seen {
        seen := seen + {addr};
        out := out + [ProxyEntry(addr, "http", source)];
      }
    }
    assert addrs[..|addrs|] == addrs;
  }

  /** Every list of entries has distinct addresses, in order of first occurrence. */
  lemma EntriesDistinct(addrs: seq<string>, source: string)
    ensures forall i, j | 0 <= i < j < |Entries(addrs, source)| ::
              Entries(addrs, source)[i].addr != Entries(addrs, source)[j].addr
    ensures forall a :: a in addrs <==> exists e :: e in Entries(addrs, source) && e.addr == a
  {
    var d := FirstOccurrences(addrs);
    var es := Entries(addrs, source);
    FirstOccurrencesMeaning(addrs);
    forall a | a in addrs
      ensures exists e :: e in es && e.addr == a
    {
      var k := FirstIndex(d, a);
      assert es[k] in es && es[k].addr == a;
    }
    forall e | e in es
      ensures e.addr in addrs
    {
      var k :| 0 <= k < |es| && es[k] == e;
      assert d[k] in d;
    }
  }

  /** What comes out of a list of addresses besides them. */
  lemma EntriesAreHttp(addrs: seq<string>, source: string)
    ensures forall e | e in Entries(addrs, source) :: e.kind == "http" && e.source == source
  {
  }

  /**
   * A path that is not two-field gives the values it reaches that have a port, each once, as proxies of type
   * http from that source; values without a colon are dropped.
   */
  lemma SingleFieldAddresses(data: Json, path: string, source: string)
    requires |SplitOn(path, ',')| != 2
    ensures var es, values := ByPath(data, path, source), Eval(data, Split(Trim(path)));
            && (forall a :: (a in values && ':' in a) <==> exists e :: e in es && e.addr == a)
            && (forall i, j | 0 <= i < j < |es| :: es[i].addr != es[j].addr)
            && (forall e | e in es :: e.kind == "http" && e.source == source)
  {
    var values := Eval(data, Split(Trim(path)));
    var kept := Filter(HasPort, values);
    FilterMembers(HasPort, values);
    EntriesDistinct(kept, source);
    EntriesAreHttp(kept, source);
    assert ByPath(data, path, source) == Entries(kept, source);
    hide Entries, Eval, Filter, ByPath;
    forall a
      ensures (a in values && ':' in a) <==> a in kept
    {
      assert HasPort(a) <==> ':' in a;
    }
  }

  /** A value itself yields its text; an array the texts of the strings and numbers directly in it, in order. */
  lemma YieldMeaning(j: Json, items: seq<Json>, x: Json)
    ensures j.Str? ==> Yield(j) == [j.text]
    ensures j.Number? ==> Yield(j) == [j.shown]
    ensures !j.Str? && !j.Number? && !j.Array? ==> Yield(j) == []
    ensures Yield(Array([])) == []
    ensures Yield(Array(items + [x])) ==
            Yield(Array(items)) + (if x.Str? then [x.text] else if x.Number? then [x.shown] else [])
  {
    assert (items + [x])[..|items|] == items;
  }

  function Itself(s: string): string {
    s
  }

  function WithoutDots(s: string): string {
    if s == "" then "" else (if s[0] == '.' then "" else [s[0]]) + WithoutDots(s[1..])
  }

  lemma FlatMapHead(head: string, tail: seq<string>)
    ensures FlatMap(Itself, [head] + tail) == head + FlatMap(Itself, tail)
  {
    FlatMapAppend(Itself, [head], tail);
    FlatMapOne(Itself, head);
  }

  lemma StarHasNoDots(rest: string)
    requires STAR <= rest
    ensures WithoutDots(rest) == STAR + WithoutDots(rest[3..])
  {
    var b, c := rest[1..], rest[2..];
    assert rest[0] == '[' && b[0] == '*' && c[0] == ']';
    assert b[1..] == c && c[1..] == rest[3..];
    assert WithoutDots(b) == "*" + WithoutDots(c) && WithoutDots(c) == "]" + WithoutDots(rest[3..]);
    assert "[" + ("*" + ("]" + WithoutDots(rest[3..]))) == STAR + WithoutDots(rest[3..]);
  }

  lemma FlushText(current: string, tail: seq<string>)
    ensures FlatMap(Itself, Flush(current) + tail) == current + FlatMap(Itself, tail)
  {
    if current == "" {
      assert Flush(current) + tail == tail;
    } else {
      FlatMapHead(current, tail);
    }
  }

  lemma EmptyText()
    ensures FlatMap(Itself, []) == ""
  {
  }

  lemma {:induction false} SplitFromKeepsText(current: string, rest: string)
    ensures FlatMap(Itself, SplitFrom(current, rest)) == current + WithoutDots(rest)
    decreases |rest|
  {
    hide FlatMap, Flush;
    if rest == "" {
      FlushText(current, []);
      assert Flush(current) + [] == Flush(current) && FlatMap(Itself, []) == "" by {
        EmptyText();
      }
    } else if rest[0] == '.' {
      SplitFromKeepsText("", rest[1..]);
      FlushText(current, SplitFrom("", rest[1..]));
    } else if STAR <= rest {
      var tail := SplitFrom("", rest[3..]);
      SplitFromKeepsText("", rest[3..]);
      Associative(Flush(current), [STAR], tail);
      FlushText(current, [STAR] + tail);
      FlatMapHead(STAR, tail);
      StarHasNoDots(rest);
    } else {
      SplitFromKeepsText(current + [rest[0]], rest[1..]);
      Associative(current, [rest[0]], WithoutDots(rest[1..]));
    }
  }

  /** Splitting loses nothing but the dots. */
  lemma SplitKeepsText(path: string)
    ensures FlatMap(Itself, Split(path)) == WithoutDots(path)
  {
    SplitFromKeepsText("", path);
  }

  predicate Blank(s: string) {
    forall i | 0 <= i < |s| :: IsSpace(s[i])
  }

  /** Trimming takes white space off both ends, and all of it. */
  lemma {:induction false} TrimMeaning(s: string) returns (left: string, right: string)
    ensures s == left + Trim(s) + right && Blank(left) && Blank(right)
    ensures Trim(s) != "" ==> !IsSpace(Trim(s)[0]) && !IsSpace(Trim(s)[|Trim(s)| - 1])
    decreases |s|
  {
    hide IsSpace;
    left, right := "", "";
    if s != "" && IsSpace(s[0]) {
      left, right := TrimMeaning(s[1..]);
      assert s == [s[0]] + s[1..];
      left := [s[0]] + left;
    } else if s != "" && IsSpace(s[|s| - 1]) {
      var front, last := s[..|s| - 1], s[|s| - 1];
      left, right := TrimMeaning(front);
      assert s == front + [last];
      right := right + [last];
    }
  }
}
