/** Asking a target for the names of ids: how the question is packed, how the
    server answers it, and how the answer is taken apart. */
module NameQuery {
  import opened Wire

  const QUERY_NAMES := 1
  const NAME_BUF := 256000
  const MESSAGE_BUF := 65536
  const WORD := 0x1_0000_0000

  type NameTable = map<NameId, string>

  /** The server's table answers for unknown ids too. */
  function Get(server: NameTable, id: NameId): string {
    if id in server then server[id] else "(ERR)"
  }

  /** A section header: the kind of question in the lower half of the word, the
      number of words that follow in the upper half, read as a signed number. */
  function Header(kind: nat, count: nat): nat {
    kind + WORD * count
  }

  function HeaderKind(w: nat): nat {
    w % WORD
  }

  function HeaderCount(w: nat): int {
    var h := (w / WORD) % WORD;
    if h >= WORD / 2 then h - WORD else h
  }

  lemma HeaderRead(kind: nat, count: nat)
    requires kind < WORD && count < WORD / 2
    ensures HeaderKind(Header(kind, count)) == kind && HeaderCount(Header(kind, count)) == count
  {
  }

  // ------------------------------------------------------------- the server

  /** The server's answer to the rest of a message: `rem` words of the current
      section are still to come, and `out` has been written already. */
  function ServeFrom(server: NameTable, words: seq<nat>, rem: int, kind: nat, out: string): Option<string>
    decreases |words|
  {
    if words == [] then Some(out)
    else if rem == 0 then ServeFrom(server, words[1..], HeaderCount(words[0]), HeaderKind(words[0]), out)
    else if kind != QUERY_NAMES then ServeFrom(server, words[1..], rem - 1, kind, out + "\n")
    else if |Get(server, words[0])| + |out| >= NAME_BUF then None
    else ServeFrom(server, words[1..], rem - 1, kind, out + Get(server, words[0]) + "\n")
  }

  method AnswerNames(server: NameTable, words: seq<nat>) returns (reply: Option<string>)
    ensures reply == ServeFrom(server, words, 0, 0, "")
  {
    var nameBuf, rem, kind := "", 0, 0;
    var i := 0;
    while i < |words|
      invariant 0 <= i <= |words|
      invariant ServeFrom(server, words, 0, 0, "") == ServeFrom(server, words[i..], rem, kind, nameBuf)
    {
      assert words[i..][1..] == words[i + 1..];
      if rem == 0 {
        kind, rem := HeaderKind(words[i]), HeaderCount(words[i]);
      } else {
        if kind == QUERY_NAMES {
          var name := Get(server, words[i]);
          if |name| + |nameBuf| >= NAME_BUF {
            return None;
          }
          nameBuf := nameBuf + name;
        }
        nameBuf := nameBuf + "\n";
        rem := rem - 1;
      }
      i := i + 1;
    }
    reply := Some(nameBuf);
  }

  /** One line per id. */
  function Lines(server: NameTable, ids: seq<NameId>): string {
    if ids == [] then "" else Get(server, ids[0]) + "\n" + Lines(server, ids[1..])
  }

  /** Every name fits behind what has been written before it. */
  predicate FitsFrom(server: NameTable, ids: seq<NameId>, used: nat) {
    ids == [] ||
    (|Get(server, ids[0])| + used < NAME_BUF && FitsFrom(server, ids[1..], used + |Get(server, ids[0])| + 1))
  }

  lemma NextLine(out: string, name: string, rest: string)
    ensures out + name + "\n" + rest == out + (name + "\n" + rest)
    ensures |out + name + "\n"| == |out| + |name| + 1
  {
  }

  // ------------------------------------------------- names, and their lengths

  /** What the server's table says about each id. */
  function NamesOf(server: NameTable, ids: seq<NameId>): (names: seq<string>)
    ensures |names| == |ids|
    ensures forall k :: 0 <= k < |ids| ==> names[k] == if ids[k] in server then server[ids[k]] else "(ERR)"
  {
    seq(|ids|, k requires 0 <= k < |ids| => Get(server, ids[k]))
  }

  /** What some names take up in the buffer, each with the end of its line. */
  function Written(names: seq<string>): nat {
    if names == [] then 0 else |names[0]| + 1 + Written(names[1..])
  }

  /** Name `k` fits in what the buffer has left when its turn comes. */
  predicate FitsAt(names: seq<string>, used: nat, k: nat)
    requires k < |names|
  {
    used + Written(names[..k]) + |names[k]| < 256000
  }

  ghost predicate AllFit(names: seq<string>, used: nat) {
    forall k {:trigger FitsAt(names, used, k)} :: 0 <= k < |names| ==> FitsAt(names, used, k)
  }

  lemma FitsNext(names: seq<string>, used: nat, k: nat)
    requires k + 1 < |names|
    ensures FitsAt(names, used, k + 1) <==> FitsAt(names[1..], used + |names[0]| + 1, k)
  {
    assert names[..k + 1][1..] == names[1..][..k];
  }

  lemma AllFitStep(names: seq<string>, used: nat)
    requires names != []
    ensures AllFit(names, used) <==> used + |names[0]| < 256000 && AllFit(names[1..], used + |names[0]| + 1)
  {
    var rest, after := names[1..], used + |names[0]| + 1;
    assert FitsAt(names, used, 0) <==> used + |names[0]| < 256000;
    forall k | 0 < k < |names|
      ensures FitsAt(names, used, k) <==> FitsAt(rest, after, k - 1)
    {
      FitsNext(names, used, k - 1);
    }
    if AllFit(names, used) {
      forall k | 0 <= k < |rest|
        ensures FitsAt(rest, after, k)
      {
        assert FitsAt(names, used, k + 1);
      }
    }
    if AllFit(rest, after) && FitsAt(names, used, 0) {
      forall k | 0 <= k < |names|
        ensures FitsAt(names, used, k)
      {
        if k > 0 {
          assert FitsAt(rest, after, k - 1);
        }
      }
    }
  }

  lemma {:induction false} FitsIff(server: NameTable, ids: seq<NameId>, names: seq<string>, used: nat)
    requires names == NamesOf(server, ids)
    ensures FitsFrom(server, ids, used) <==> AllFit(names, used)
    decreases |ids|
  {
    if ids != [] {
      assert names[1..] == NamesOf(server, ids[1..]) && names[0] == Get(server, ids[0]);
      AllFitStep(names, used);
      FitsIff(server, ids[1..], names[1..], used + |names[0]| + 1);
    }
  }

  // -------------------------------------------------- questions in sections

  datatype Section = Section(kind: nat, ids: seq<nat>)

  /** A message may hold several sections, each with a header that says its kind
      and its number of words. */
  function Words(sections: seq<Section>): seq<nat> {
    if sections == [] then []
    else [sections[0].kind + 0x1_0000_0000 * |sections[0].ids|] + sections[0].ids + Words(sections[1..])
  }

  /** A names section is answered with one line per id, a section of another kind
      with as many empty lines. */
  function AnswerTo(server: NameTable, sections: seq<Section>, out: string): Option<string> {
    if sections == [] then Some(out)
    else
      var s := sections[0];
      if s.kind != 1 then AnswerTo(server, sections[1..], out + seq(|s.ids|, _ => '\n'))
      else if FitsFrom(server, s.ids, |out|) then AnswerTo(server, sections[1..], out + Lines(server, s.ids))
      else None
  }

  lemma {:induction false} ServeSections(server: NameTable, sections: seq<Section>, kind: nat, out: string)
    requires forall s :: s in sections ==> s.kind < WORD && |s.ids| < WORD / 2
    ensures ServeFrom(server, Words(sections), 0, kind, out) == AnswerTo(server, sections, out)
    decreases |sections|
  {
    if sections != [] {
      var s, rest := sections[0], Words(sections[1..]);
      var words := Words(sections);
      assert s in sections;
      HeaderRead(s.kind, |s.ids|);
      assert words[1..] == s.ids + rest;
      if s.kind == 1 {
        ServeNames(server, s.ids, rest, out);
        if FitsFrom(server, s.ids, |out|) {
          ServeSections(server, sections[1..], s.kind, out + Lines(server, s.ids));
        }
      } else {
        ServeOther(server, s.ids, rest, s.kind, out);
        ServeSections(server, sections[1..], s.kind, out + seq(|s.ids|, _ => '\n'));
      }
    }
  }

  lemma {:induction false} ServeNames(server: NameTable, ids: seq<NameId>, rest: seq<nat>, out: string)
    ensures ServeFrom(server, ids + rest, |ids|, 1, out)
         == if FitsFrom(server, ids, |out|) then ServeFrom(server, rest, 0, 1, out + Lines(server, ids)) else None
    decreases |ids|
  {
    if ids == [] {
      assert ids + rest == rest && out + Lines(server, ids) == out;
    } else {
      var name := Get(server, ids[0]);
      assert (ids + rest)[1..] == ids[1..] + rest;
      ServeNames(server, ids[1..], rest, out + name + "\n");
      NextLine(out, name, Lines(server, ids[1..]));
    }
  }

  lemma {:induction false} ServeOther(server: NameTable, ids: seq<NameId>, rest: seq<nat>, kind: nat, out: string)
    requires kind != 1
    ensures ServeFrom(server, ids + rest, |ids|, kind, out)
         == ServeFrom(server, rest, 0, kind, out + seq(|ids|, _ => '\n'))
    decreases |ids|
  {
    if ids == [] {
      assert ids + rest == rest && out + seq(|ids|, _ => '\n') == out;
    } else {
      assert (ids + rest)[1..] == ids[1..] + rest;
      ServeOther(server, ids[1..], rest, kind, out + "\n");
      assert out + "\n" + seq(|ids| - 1, _ => '\n') == out + seq(|ids|, _ => '\n');
    }
  }

  // ------------------------------------------------------------- the client

  function Pack(ids: seq<NameId>): seq<nat> {
    [Header(QUERY_NAMES, |ids|)] + ids
  }

  /** What the server answers to a packed question. */
  lemma ServePacked(server: NameTable, ids: seq<NameId>)
    requires |ids| < WORD / 2
    ensures ServeFrom(server, Pack(ids), 0, 0, "")
         == if FitsFrom(server, ids, 0) then Some(Lines(server, ids)) else None
  {
    HeaderRead(QUERY_NAMES, |ids|);
    assert Pack(ids)[1..] == ids + [];
    ServeNames(server, ids, [], "");
    assert "" + Lines(server, ids) == Lines(server, ids);
  }

  /** Where the first line of a text ends. */
  function LineEnd(s: string): (n: nat)
    ensures n <= |s| && '\n' !in s[..n] && (n < |s| ==> s[n] == '\n')
  {
    if s == "" || s[0] == '\n' then 0
    else
      var n := LineEnd(s[1..]);
      assert s[..n + 1] == [s[0]] + s[1..][..n];
      n + 1
  }

  function Line(s: string): string {
    s[..LineEnd(s)]
  }

  function AfterLine(s: string): string {
    if LineEnd(s) < |s| then s[LineEnd(s) + 1..] else ""
  }

  /** Binds each id to the next line of the reply, to nothing at its end. */
  function BindLines(table: NameTable, ids: seq<NameId>, reply: string): NameTable
    decreases |ids|
  {
    if ids == [] then table else BindLines(table[ids[0] := Line(reply)], ids[1..], AfterLine(reply))
  }

  method Bind(table: NameTable, ids: seq<NameId>, reply: string) returns (r: NameTable)
    ensures r == BindLines(table, ids, reply)
  {
    r := table;
    var rest, i := reply, 0;
    while i < |ids|
      invariant 0 <= i <= |ids|
      invariant BindLines(table, ids, reply) == BindLines(r, ids[i..], rest)
    {
      assert ids[i..][1..] == ids[i + 1..];
      r := r[ids[i] := Line(rest)];
      rest := AfterLine(rest);
      i := i + 1;
    }
  }

  ghost predicate Distinct(ids: seq<NameId>) {
    forall j, k :: 0 <= j < k < |ids| ==> ids[j] != ids[k]
  }

  /** Only the given ids are bound. */
  lemma {:induction false} BindsOnly(table: NameTable, ids: seq<NameId>, reply: string, id: NameId)
    requires id !in ids
    ensures id in BindLines(table, ids, reply) <==> id in table
    ensures id in table ==> BindLines(table, ids, reply)[id] == table[id]
    decreases |ids|
  {
    if ids != [] {
      BindsOnly(table[ids[0] := Line(reply)], ids[1..], AfterLine(reply), id);
    }
  }

  ghost predicate BoundRight(server: NameTable, r: NameTable, ids: seq<NameId>) {
    forall k :: 0 <= k < |ids| ==> ids[k] in r && r[ids[k]] == Get(server, ids[k])
  }

  ghost predicate OneLineNames(server: NameTable, ids: seq<NameId>) {
    forall k :: 0 <= k < |ids| ==> '\n' !in Get(server, ids[k])
  }

  lemma FirstLine(name: string, rest: string)
    ensures '\n' !in name ==> Line(name + "\n" + rest) == name && AfterLine(name + "\n" + rest) == rest
    ensures '\n' in name ==> Line(name + "\n" + rest) != name
  {
    var s := name + "\n" + rest;
    if '\n' !in name {
      assert s[..|name|] == name && s[|name|] == '\n' && s[|name| + 1..] == rest;
      FirstNewline(s, |name|);
    }
  }

  lemma {:induction false} FirstNewline(s: string, n: nat)
    requires n < |s| && '\n' !in s[..n] && s[n] == '\n'
    ensures LineEnd(s) == n
  {
    if n > 0 {
      assert s[0] == s[..n][0];
      assert s[1..][..n - 1] == s[..n][1..];
      FirstNewline(s[1..], n - 1);
    }
  }

  /** The first id is bound to its name exactly if the name is one line, and
      then the others are bound to the lines that follow. */
  lemma FirstBound(server: NameTable, table: NameTable, ids: seq<NameId>)
    requires Distinct(ids) && ids != []
    ensures var r, name := BindLines(table, ids, Lines(server, ids)), Get(server, ids[0]);
      && ids[0] in r && (r[ids[0]] == name <==> '\n' !in name)
      && ('\n' !in name ==> r == BindLines(table[ids[0] := name], ids[1..], Lines(server, ids[1..])))
  {
    var reply := Lines(server, ids);
    FirstLine(Get(server, ids[0]), Lines(server, ids[1..]));
    BindsOnly(table[ids[0] := Line(reply)], ids[1..], AfterLine(reply), ids[0]);
  }

  /** Splitting the lines binds every id to its name exactly if no name spans lines. */
  lemma {:induction false} SplitIffOneLine(server: NameTable, table: NameTable, ids: seq<NameId>)
    requires Distinct(ids)
    ensures BoundRight(server, BindLines(table, ids, Lines(server, ids)), ids) <==> OneLineNames(server, ids)
    decreases |ids|
  {
    if ids != [] {
      var name, r := Get(server, ids[0]), BindLines(table, ids, Lines(server, ids));
      FirstBound(server, table, ids);
      FirstAndRest(server, r, ids);
      if '\n' !in name {
        SplitIffOneLine(server, table[ids[0] := name], ids[1..]);
      }
    }
  }

  lemma FirstAndRest(server: NameTable, r: NameTable, ids: seq<NameId>)
    requires ids != []
    ensures BoundRight(server, r, ids)
       <==> ids[0] in r && r[ids[0]] == Get(server, ids[0]) && BoundRight(server, r, ids[1..])
    ensures OneLineNames(server, ids) <==> '\n' !in Get(server, ids[0]) && OneLineNames(server, ids[1..])
  {
    var rest := ids[1..];
    assert forall k :: 0 < k < |ids| ==> ids[k] == rest[k - 1];
  }

  /** After an error the reply is empty, and so is every name. */
  lemma {:induction false} BindNothing(table: NameTable, ids: seq<NameId>, k: nat)
    requires Distinct(ids) && k < |ids|
    ensures ids[k] in BindLines(table, ids, "") && BindLines(table, ids, "")[ids[k]] == ""
    decreases |ids|
  {
    var next := table[ids[0] := Line("")];
    if k == 0 {
      BindsOnly(next, ids[1..], AfterLine(""), ids[0]);
    } else {
      BindNothing(next, ids[1..], k - 1);
    }
  }

  lemma {:induction false} EmptyFits(server: NameTable, ids: seq<NameId>, used: nat)
    requires forall k :: 0 <= k < |ids| ==> Get(server, ids[k]) == ""
    requires used + |ids| <= NAME_BUF
    ensures FitsFrom(server, ids, used)
    decreases |ids|
  {
    if ids != [] {
      assert Get(server, ids[0]) == "";
      EmptyFits(server, ids[1..], used + 1);
    }
  }

  /** Does the question fit the server's message buffer? Otherwise it aborts. */
  predicate Sendable(ids: seq<NameId>) {
    8 * |Pack(ids)| < MESSAGE_BUF
  }

  /** The table after asking: nothing if the question ends the target, and an
      error is answered with an empty text. */
  ghost function Asked(server: NameTable, table: NameTable, ids: seq<NameId>): Option<NameTable> {
    if !Sendable(ids) then None
    else
      var reply := ServeFrom(server, Pack(ids), 0, 0, "");
      Some(BindLines(table, ids, if reply.Some? then reply.value else ""))
  }

  /** The round trip binds every id to the server's name for it, or to the text
      for unknown ids, exactly if there are not too many for one message, none of
      these texts spans lines, and all of them fit the server's buffer. */
  lemma RoundTrip(server: NameTable, table: NameTable, ids: seq<NameId>, names: seq<string>)
    requires Distinct(ids) && |names| == |ids|
    requires forall k :: 0 <= k < |ids| ==> names[k] == if ids[k] in server then server[ids[k]] else "(ERR)"
    ensures var r := Asked(server, table, ids);
      r.Some? && (forall k :: 0 <= k < |ids| ==> ids[k] in r.value && r.value[ids[k]] == names[k])
      <==>
      && |ids| <= 8190
      && (forall k :: 0 <= k < |names| ==> '\n' !in names[k])
      && forall k :: 0 <= k < |names| ==> Written(names[..k]) + |names[k]| < 256000
  {
    var r := Asked(server, table, ids);
    assert names == NamesOf(server, ids);
    BoundIff(server, table, ids);
    FitsIff(server, ids, names, 0);
    assert forall k :: 0 <= k < |names| ==> (FitsAt(names, 0, k) <==> Written(names[..k]) + |names[k]| < 256000);
    assert AllFit(names, 0) <==> forall k :: 0 <= k < |names| ==> Written(names[..k]) + |names[k]| < 256000;
    OneLineIff(server, ids, names);
    if r.Some? {
      RightIff(server, r.value, ids, names);
    }
  }

  lemma OneLineIff(server: NameTable, ids: seq<NameId>, names: seq<string>)
    requires names == NamesOf(server, ids)
    ensures OneLineNames(server, ids) <==> forall k :: 0 <= k < |names| ==> '\n' !in names[k]
  {
    assert forall k :: 0 <= k < |names| ==> names[k] == Get(server, ids[k]);
  }

  lemma RightIff(server: NameTable, r: NameTable, ids: seq<NameId>, names: seq<string>)
    requires names == NamesOf(server, ids)
    ensures BoundRight(server, r, ids) <==> forall k :: 0 <= k < |ids| ==> ids[k] in r && r[ids[k]] == names[k]
  {
    assert forall k :: 0 <= k < |names| ==> names[k] == Get(server, ids[k]);
  }

  lemma BoundIff(server: NameTable, table: NameTable, ids: seq<NameId>)
    requires Distinct(ids)
    ensures var r := Asked(server, table, ids);
      r.Some? && BoundRight(server, r.value, ids)
      <==> |ids| <= 8190 && OneLineNames(server, ids) && FitsFrom(server, ids, 0)
  {
    if !Sendable(ids) {
      return;
    }
    ServePacked(server, ids);
    if FitsFrom(server, ids, 0) {
      SplitIffOneLine(server, table, ids);
    } else {
      var r := BindLines(table, ids, "");
      forall k | 0 <= k < |ids|
        ensures ids[k] in r && r[ids[k]] == ""
      {
        BindNothing(table, ids, k);
      }
      if BoundRight(server, r, ids) {
        EmptyFits(server, ids, 0);
        assert false;
      }
    }
  }

  // ----------------------------------------------------- which names to ask

  /** The ids to ask for: those not in the table, each once. */
  method CollectUnknown(table: NameTable, names: seq<NameId>) returns (ids: seq<NameId>, asking: NameTable)
    ensures Distinct(ids)
    ensures forall id :: id in ids <==> id in names && id !in table
    ensures asking.Keys == table.Keys + (set id | id in names)
    ensures forall id :: id in table ==> asking[id] == table[id]
  {
    ids, asking := [], table;
    for i := 0 to |names|
      invariant Distinct(ids)
      invariant forall id :: id in ids <==> id in names[..i] && id !in table
      invariant asking.Keys == table.Keys + (set id | id in names[..i])
      invariant forall id :: id in table ==> asking[id] == table[id]
    {
      assert names[..i + 1] == names[..i] + [names[i]];
      if names[i] !in asking {
        ids := ids + [names[i]];
        asking := asking[names[i] := "<Asking>"];
      }
    }
    assert names[..|names|] == names;
  }

  /** What storing buffers does for names. Nothing is asked when nothing is
      unknown, and a question that is too long ends the target. */
  method LearnNames(server: NameTable, table: NameTable, names: seq<NameId>)
    returns (ids: seq<NameId>, r: Option<NameTable>)
    ensures Distinct(ids) && forall id :: id in ids <==> id in names && id !in table
    ensures r.Some? <==> |ids| <= 8190
    ensures r.Some? ==>
      && (forall id :: id in r.value <==> id in table || id in names)
      && (forall id :: id in table ==> r.value[id] == table[id])
    ensures r.Some? ==> var right := NamesOf(server, ids);
      (forall k :: 0 <= k < |ids| ==>
         ids[k] in r.value && r.value[ids[k]] == if ids[k] in server then server[ids[k]] else "(ERR)")
      <==>
      && (forall k :: 0 <= k < |right| ==> '\n' !in right[k])
      && forall k :: 0 <= k < |right| ==> Written(right[..k]) + |right[k]| < 256000
  {
    var asking;
    ids, asking := CollectUnknown(table, names);
    if ids == [] {
      return ids, Some(asking);
    }
    if 8 * |Pack(ids)| >= MESSAGE_BUF {
      return ids, None;
    }
    var reply := AnswerNames(server, Pack(ids));
    var text := if reply.Some? then reply.value else "";
    var bound := Bind(asking, ids, text);
    AskedNames(server, asking, ids, bound);
    BindsKnown(asking, ids, text, bound);
    r := Some(bound);
  }

  lemma AskedNames(server: NameTable, table: NameTable, ids: seq<NameId>, r: NameTable)
    requires Distinct(ids) && Asked(server, table, ids) == Some(r)
    ensures var right := NamesOf(server, ids);
      (forall k :: 0 <= k < |ids| ==>
         ids[k] in r && r[ids[k]] == if ids[k] in server then server[ids[k]] else "(ERR)")
      <==>
      && (forall k :: 0 <= k < |right| ==> '\n' !in right[k])
      && forall k :: 0 <= k < |right| ==> Written(right[..k]) + |right[k]| < 256000
  {
    RoundTrip(server, table, ids, NamesOf(server, ids));
  }

  lemma BindsKnown(table: NameTable, ids: seq<NameId>, reply: string, r: NameTable)
    requires r == BindLines(table, ids, reply) && forall id :: id in ids ==> id in table
    ensures r.Keys == table.Keys && forall id :: id in table && id !in ids ==> r[id] == table[id]
  {
    forall id
      ensures id in r <==> id in table
      ensures id in table && id !in ids ==> r[id] == table[id]
    {
      if id in ids {
        BindsAll(table, ids, reply, id);
      } else {
        BindsOnly(table, ids, reply, id);
      }
    }
  }

  lemma {:induction false} BindsAll(table: NameTable, ids: seq<NameId>, reply: string, id: NameId)
    requires id in ids || id in table
    ensures id in BindLines(table, ids, reply)
    decreases |ids|
  {
    if ids != [] {
      BindsAll(table[ids[0] := Line(reply)], ids[1..], AfterLine(reply), id);
    }
  }
}
