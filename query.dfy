/** Turning the text typed into the search box into a search request:
    one clause `@field:(text)` per field, joined with ` | ` (an OR), with
    the text put in verbatim, and a first page of ten results with
    highlighting and summaries. */
module QueryCompiler {
  import Schema

  datatype Option<T> = None | Some(value: T)

  /** The fields a query searches, in the order their clauses appear. */
  const QUERY_FIELDS: seq<string> := [
    "username", "handle", "content", "source", "title",
    "channel", "guild", "author", "message_link"
  ]

  const SEPARATOR: string := " | "

  /** The paging window of the one search issued: offset 0, ten results. */
  const PAGE_OFFSET: nat := 0
  const PAGE_SIZE: nat := 10

  /** What is handed to the search engine. */
  datatype SearchRequest = SearchRequest(
    queryString: string,
    offset: nat,
    num: nat,
    highlight: bool,
    summarize: bool)

  /** One field-scoped clause. */
  function Clause(field: string, text: string): (c: string)
    ensures |c| == |field| + |text| + 4
    ensures c[0] == '@' && c[|c| - 1] == ')'
  {
    "@" + field + ":(" + text + ")"
  }

  /** The text sits verbatim inside its clause, after `@field:(`. */
  lemma ClauseText(field: string, text: string)
    ensures Clause(field, text)[|field| + 3 .. |field| + 3 + |text|] == text
  {
    var c := Clause(field, text);
    forall j | 0 <= j < |text| ensures c[|field| + 3 + j] == text[j] {
      assert c == ("@" + field + ":(") + text + ")";
    }
  }

  /** The list of clauses, one per field, in field order. */
  function Clauses(fields: seq<string>, text: string): (cs: seq<string>)
    ensures |cs| == |fields|
    ensures forall i :: 0 <= i < |fields| ==> cs[i] == Clause(fields[i], text)
  {
    seq(|fields|, i requires 0 <= i < |fields| => Clause(fields[i], text))
  }

  /** `sep.join(parts)`: the parts with `sep` between neighbours. */
  function Join(sep: string, parts: seq<string>): (r: string)
    decreases |parts|
  {
    if |parts| == 0 then ""
    else if |parts| == 1 then parts[0]
    else parts[0] + sep + Join(sep, parts[1..])
  }

  /** The query string searched for `text`: nine clauses of
      `|field| + |text| + 4` characters and eight three-character separators,
      starting with the `username` clause. */
  function Compile(text: string): (q: string)
    ensures |q| == 122 + 9 * |text|
    ensures q[..|text| + 12] == "@username:(" + text + ")"
  {
    var parts := Clauses(QUERY_FIELDS, text);
    JoinLength(SEPARATOR, parts);
    ClausesTotalLength(QUERY_FIELDS, text);
    QueryFieldNamesLength();
    JoinPartAt(SEPARATOR, parts, 0);
    assert parts[0] == "@username:(" + text + ")";
    Join(SEPARATOR, parts)
  }

  /** The search issued for the text in the search box; an empty box
      issues none. */
  function Request(text: string): (r: Option<SearchRequest>)
    ensures r.None? <==> text == ""
    ensures r.Some? ==> r.value.queryString == Compile(text)
    ensures r.Some? ==> r.value.offset == 0 && r.value.num == 10
    ensures r.Some? ==> r.value.highlight && r.value.summarize
  {
    if text == "" then None
    else Some(SearchRequest(Compile(text), PAGE_OFFSET, PAGE_SIZE, true, true))
  }

  // ---------------------------------------------------------------------
  // Where each part and each separator sits inside a joined string.

  /** Offset at which `parts[i]` begins inside `Join(sep, parts)`. */
  function Start(sep: string, parts: seq<string>, i: nat): nat
    requires i <= |parts|
    decreases i
  {
    if i == 0 then 0 else |parts[0]| + |sep| + Start(sep, parts[1..], i - 1)
  }

  /** Total length of a list of strings. */
  function TotalLength(parts: seq<string>): nat
  {
    if parts == [] then 0 else |parts[0]| + TotalLength(parts[1..])
  }

  /** The joined string ends right after the last part. */
  lemma {:induction false} JoinLength(sep: string, parts: seq<string>)
    requires |parts| > 0
    ensures |Join(sep, parts)| == Start(sep, parts, |parts| - 1) + |parts[|parts| - 1]|
    ensures |Join(sep, parts)| == TotalLength(parts) + (|parts| - 1) * |sep|
    decreases |parts|
  {
    if |parts| > 1 {
      JoinLength(sep, parts[1..]);
      assert TotalLength(parts) == |parts[0]| + TotalLength(parts[1..]);
      assert (|parts| - 1) * |sep| == |sep| + (|parts| - 2) * |sep|;
    }
  }

  /** Part `i` appears unchanged at its offset. */
  lemma {:induction false} JoinPartAt(sep: string, parts: seq<string>, i: nat)
    requires i < |parts|
    ensures Start(sep, parts, i) + |parts[i]| <= |Join(sep, parts)|
    ensures Join(sep, parts)[Start(sep, parts, i) .. Start(sep, parts, i) + |parts[i]|] == parts[i]
    decreases i
  {
    if |parts| > 1 {
      var rest := Join(sep, parts[1..]);
      var o := |parts[0]| + |sep|;
      assert Join(sep, parts) == parts[0] + sep + rest;
      if i > 0 {
        JoinPartAt(sep, parts[1..], i - 1);
        var a := Start(sep, parts[1..], i - 1);
        assert Join(sep, parts)[o + a .. o + a + |parts[i]|] == rest[a .. a + |parts[i]|];
      } else {
        assert Join(sep, parts)[..|parts[0]|] == parts[0];
      }
    }
  }

  /** Between part `i` and part `i + 1` stands exactly one separator. */
  lemma {:induction false} JoinSeparatorAt(sep: string, parts: seq<string>, i: nat)
    requires i + 1 < |parts|
    ensures Start(sep, parts, i) + |parts[i]| + |sep| == Start(sep, parts, i + 1)
    ensures Start(sep, parts, i + 1) <= |Join(sep, parts)|
    ensures Join(sep, parts)[Start(sep, parts, i) + |parts[i]| .. Start(sep, parts, i + 1)] == sep
    decreases i
  {
    var rest := Join(sep, parts[1..]);
    var o := |parts[0]| + |sep|;
    assert Join(sep, parts) == parts[0] + sep + rest;
    if i > 0 {
      JoinSeparatorAt(sep, parts[1..], i - 1);
      var a := Start(sep, parts[1..], i - 1) + |parts[i]|;
      var b := Start(sep, parts[1..], i);
      assert Join(sep, parts)[o + a .. o + b] == rest[a .. b];
    } else {
      assert Join(sep, parts)[|parts[0]| .. o] == sep;
    }
  }

  /** A piece of a piece of `q` is a piece of `q`. */
  lemma SliceWithin(q: string, o: nat, c: string, k: nat, t: string)
    requires o + |c| <= |q| && q[o .. o + |c|] == c
    requires k + |t| <= |c| && c[k .. k + |t|] == t
    ensures q[o + k .. o + k + |t|] == t
  {
    forall j | 0 <= j < |t| ensures q[o + k .. o + k + |t|][j] == t[j] {
      assert t[j] == c[k + j] == q[o .. o + |c|][k + j];
    }
  }

  /** A piece of part `i` appears at the same place inside the joined
      string, shifted by the part's offset. */
  lemma JoinTextAt(sep: string, parts: seq<string>, i: nat, k: nat, t: string)
    requires i < |parts|
    requires k + |t| <= |parts[i]| && parts[i][k .. k + |t|] == t
    ensures Start(sep, parts, i) + k + |t| <= |Join(sep, parts)|
    ensures Join(sep, parts)[Start(sep, parts, i) + k .. Start(sep, parts, i) + k + |t|] == t
  {
    JoinPartAt(sep, parts, i);
    SliceWithin(Join(sep, parts), Start(sep, parts, i), parts[i], k, t);
  }

  // ---------------------------------------------------------------------
  // Properties of the compiled query.

  /** In the OR of the clauses for `fields`, clause `i` stands at its
      offset, carries the text verbatim, and is followed by ` | ` unless it
      is the last. */
  lemma ClauseAt(fields: seq<string>, text: string, i: nat)
    requires i < |fields|
    ensures var q, o, c := Join(SEPARATOR, Clauses(fields, text)), Start(SEPARATOR, Clauses(fields, text), i), Clause(fields[i], text);
      && o + |c| <= |q|
      && q[o .. o + |c|] == c
      && q[o + |fields[i]| + 3 .. o + |fields[i]| + 3 + |text|] == text
      && (i + 1 < |fields| ==> o + |c| + 3 <= |q| && q[o + |c| .. o + |c| + 3] == " | ")
      && (i + 1 == |fields| ==> o + |c| == |q|)
  {
    var parts := Clauses(fields, text);
    assert parts[i] == Clause(fields[i], text);
    ClauseText(fields[i], text);
    PartWithTextAt(SEPARATOR, parts, i, |fields[i]| + 3, text);
    PartFollowedBy(SEPARATOR, parts, i);
  }

  /** Part `i` and a piece `t` of it at `k` appear in the joined string. */
  lemma PartWithTextAt(sep: string, parts: seq<string>, i: nat, k: nat, t: string)
    requires i < |parts|
    requires k + |t| <= |parts[i]| && parts[i][k .. k + |t|] == t
    ensures var q, o := Join(sep, parts), Start(sep, parts, i);
      && o + |parts[i]| <= |q|
      && q[o .. o + |parts[i]|] == parts[i]
      && q[o + k .. o + k + |t|] == t
  {
    JoinPartAt(sep, parts, i);
    JoinTextAt(sep, parts, i, k, t);
  }

  /** Part `i` is followed by the separator, or ends the joined string. */
  lemma PartFollowedBy(sep: string, parts: seq<string>, i: nat)
    requires i < |parts|
    ensures var q, e := Join(sep, parts), Start(sep, parts, i) + |parts[i]|;
      && (i + 1 < |parts| ==> e + |sep| <= |q| && q[e .. e + |sep|] == sep)
      && (i + 1 == |parts| ==> e == |q|)
  {
    if i + 1 < |parts| {
      JoinSeparatorAt(sep, parts, i);
    } else {
      JoinLength(sep, parts);
    }
  }

  /** Clause `i` of the compiled query is `@field:(text)` for the `i`-th
      query field; it begins after the names of the earlier fields plus
      `|text| + 7` characters per earlier clause, carries the text verbatim,
      and is followed by ` | ` unless it is the last: one clause per field,
      in field order, with eight separators between the nine. */
  lemma CompiledClauseAt(text: string, i: nat)
    requires i < |QUERY_FIELDS|
    ensures var q, o, f := Compile(text), TotalLength(QUERY_FIELDS[..i]) + i * (|text| + 7), QUERY_FIELDS[i];
      && o + |f| + |text| + 4 <= |q|
      && q[o .. o + |f| + |text| + 4] == "@" + f + ":(" + text + ")"
      && q[o + |f| + 3 .. o + |f| + 3 + |text|] == text
      && (i + 1 < |QUERY_FIELDS| ==> o + |f| + |text| + 7 <= |q| && q[o + |f| + |text| + 4 .. o + |f| + |text| + 7] == " | ")
      && (i + 1 == |QUERY_FIELDS| ==> o + |f| + |text| + 4 == |q|)
  {
    assert Compile(text) == Join(SEPARATOR, Clauses(QUERY_FIELDS, text));
    ClauseAt(QUERY_FIELDS, text, i);
    ClauseStart(QUERY_FIELDS, text, i);
  }

  /** Clause `i` begins after the names of the fields before it and
      `|text| + 7` characters per earlier clause (`@`, `:(`, `)`, ` | `). */
  lemma {:induction false} ClauseStart(fields: seq<string>, text: string, i: nat)
    requires i <= |fields|
    ensures Start(SEPARATOR, Clauses(fields, text), i) == TotalLength(fields[..i]) + i * (|text| + 7)
    decreases i
  {
    if i > 0 {
      assert Clauses(fields, text)[1..] == Clauses(fields[1..], text);
      ClauseStart(fields[1..], text, i - 1);
      assert fields[..i][1..] == fields[1..][..i - 1];
      assert i * (|text| + 7) == (|text| + 7) + (i - 1) * (|text| + 7);
    }
  }

  lemma {:induction false} ClausesTotalLength(fields: seq<string>, text: string)
    ensures TotalLength(Clauses(fields, text)) == TotalLength(fields) + |fields| * (|text| + 4)
    decreases |fields|
  {
    if fields != [] {
      var cs := Clauses(fields, text);
      assert cs[1..] == Clauses(fields[1..], text);
      ClausesTotalLength(fields[1..], text);
      assert |fields| * (|text| + 4) == (|text| + 4) + (|fields| - 1) * (|text| + 4);
    }
  }

  /** The nine field names take 62 characters. */
  lemma QueryFieldNamesLength()
    ensures TotalLength(QUERY_FIELDS) == 62
  {
    var f := QUERY_FIELDS;
    assert TotalLength(f[8..]) == 12;
    assert TotalLength(f[7..]) == 6 + TotalLength(f[7..][1..]);
    assert f[7..][1..] == f[8..];
    assert TotalLength(f[6..]) == 5 + TotalLength(f[6..][1..]);
    assert f[6..][1..] == f[7..];
    assert TotalLength(f[5..]) == 7 + TotalLength(f[5..][1..]);
    assert f[5..][1..] == f[6..];
    assert TotalLength(f[4..]) == 5 + TotalLength(f[4..][1..]);
    assert f[4..][1..] == f[5..];
    assert TotalLength(f[3..]) == 6 + TotalLength(f[3..][1..]);
    assert f[3..][1..] == f[4..];
    assert TotalLength(f[2..]) == 7 + TotalLength(f[2..][1..]);
    assert f[2..][1..] == f[3..];
    assert TotalLength(f[1..]) == 6 + TotalLength(f[1..][1..]);
    assert f[1..][1..] == f[2..];
    assert TotalLength(f) == 8 + TotalLength(f[1..]);
  }

  /** The compiled query determines the text it was compiled from: the
      text is neither dropped nor altered. */
  lemma CompileInjective(a: string, b: string)
    requires Compile(a) == Compile(b)
    ensures a == b
  {
    assert |a| == |b|;
    var q := Compile(a);
    assert a == q[11 .. 11 + |a|] by {
      assert q[..|a| + 12][11 .. 11 + |a|] == a;
    }
    assert b == q[11 .. 11 + |b|] by {
      assert q[..|b| + 12][11 .. 11 + |b|] == b;
    }
  }

  /** The query searches exactly the index's fields, in schema order. */
  lemma QueryFieldsAreSchemaFields()
    ensures QUERY_FIELDS == Schema.Names(Schema.FIELDS)
  {
  }
}
