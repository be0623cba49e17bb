/** The serializer's writers (`factum-core/src/serialize.rs`): each appends to an output string what the
    functions of `Serialize` say. */
module Serializer {
  import opened Types
  import opened Decimal
  import opened Serialize

  /** The string being built. */
  class Output {
    var text: Text

    constructor ()
      ensures text == []
    {
      text := [];
    }

    method Push(s: Text)
      modifies this
      ensures text == old(text) + s
    {
      text := text + s;
    }
  }

  lemma ArgsStep(args: seq<Term>, i: nat, cal: Calendar)
    requires i < |args|
    ensures ArgsText(args[i..], cal) == " " + TermText(args[i], cal) + ArgsText(args[i + 1..], cal)
  {
    assert args[i..][1..] == args[i + 1..];
  }

  lemma NamedStep(named: seq<NamedArg>, i: nat, cal: Calendar)
    requires i < |named|
    ensures NamedText(named[i..], cal)
         == " :" + named[i].key + " " + TermText(named[i].value, cal) + NamedText(named[i + 1..], cal)
  {
    assert named[i..][1..] == named[i + 1..];
  }

  lemma IdsStep(ids: seq<Text>, i: nat)
    requires i < |ids|
    ensures IdsText(ids[i..]) == " " + ids[i] + IdsText(ids[i + 1..])
  {
    assert ids[i..][1..] == ids[i + 1..];
  }

  lemma EscapeStep(s: Text, i: nat)
    requires i < |s|
    ensures Escape(s[i..]) == EscapeByte(s[i]) + Escape(s[i + 1..])
  {
    assert s[i..][1..] == s[i + 1..];
  }

  /** Concatenation is associative. */
  lemma Associates(a: Text, b: Text, c: Text)
    ensures a + b + c == a + (b + c)
  {
  }

  /** A string in quotes, escaped byte by byte. */
  method WriteQuoted(s: Text, out: Output)
    modifies out
    ensures out.text == old(out.text) + Quote(Escape(s))
  {
    hide Escape, EscapeByte;
    out.Push("\"");
    ghost var before := out.text;
    assert s[0..] == s;
    for i := 0 to |s|
      invariant out.text + Escape(s[i..]) == before + Escape(s)
    {
      EscapeStep(s, i);
      Associates(out.text, EscapeByte(s[i]), Escape(s[i + 1..]));
      out.Push(EscapeByte(s[i]));
    }
    NothingLeft(s[|s|..]);
    out.Push("\"");
    Associates(old(out.text), "\"", Escape(s));
    Associates(old(out.text), "\"" + Escape(s), "\"");
  }

  lemma NothingLeft(s: Text)
    requires s == []
    ensures Escape(s) == []
  {
  }

  /** `canonical_literal`. */
  method WriteLiteral(lit: Literal, cal: Calendar, out: Output)
    modifies out
    ensures out.text == old(out.text) + LiteralText(lit, cal)
  {
    match lit {
      case Str(s) => WriteQuoted(s, out);
      case _ => out.Push(LiteralText(lit, cal));
    }
  }

  /** `canonical_term`. */
  method WriteTerm(t: Term, cal: Calendar, out: Output)
    modifies out
    ensures out.text == old(out.text) + TermText(t, cal)
    decreases t, 1
  {
    match t {
      case Var(name) =>
        out.Push("?");
        out.Push(name);
      case Ent(entity) =>
        out.Push("@");
        out.Push(entity);
      case Lit(lit) =>
        WriteLiteral(lit, cal, out);
      case Compound(pred) =>
        WritePredicate(pred, cal, out);
      case List(items) =>
        WriteItems(items, cal, out);
    }
  }

  /** The bracketed items of a list. */
  method WriteItems(items: seq<Term>, cal: Calendar, out: Output)
    modifies out
    ensures out.text == old(out.text) + "[" + ItemsText(items, cal) + "]"
    decreases items, 0
  {
    out.Push("[");
    if items != [] {
      hide ArgsText, TermText;
      WriteTerm(items[0], cal, out);
      ghost var before := out.text;
      for i := 1 to |items|
        invariant out.text + ArgsText(items[i..], cal) == before + ArgsText(items[1..], cal)
      {
        ArgsStep(items, i, cal);
        out.Push(" ");
        WriteTerm(items[i], cal, out);
      }
      assert items[|items|..] == [];
      NoArgsLeft(cal);
      Associates(old(out.text) + "[", TermText(items[0], cal), ArgsText(items[1..], cal));
    }
    out.Push("]");
  }

  lemma NoArgsLeft(cal: Calendar)
    ensures ArgsText([], cal) == [] && NamedText([], cal) == [] && IdsText([]) == []
  {
  }

  /** Positional arguments, each after a space. */
  method WriteArgs(args: seq<Term>, cal: Calendar, out: Output)
    modifies out
    ensures out.text == old(out.text) + ArgsText(args, cal)
    decreases args, 0
  {
    hide ArgsText, TermText;
    assert args[0..] == args;
    for i := 0 to |args|
      invariant out.text + ArgsText(args[i..], cal) == old(out.text) + ArgsText(args, cal)
    {
      ArgsStep(args, i, cal);
      out.Push(" ");
      WriteTerm(args[i], cal, out);
    }
    assert args[|args|..] == [];
    NoArgsLeft(cal);
  }

  method WriteNamed(named: seq<NamedArg>, cal: Calendar, out: Output)
    modifies out
    ensures out.text == old(out.text) + NamedText(named, cal)
    decreases named, 0
  {
    hide NamedText, TermText;
    assert named[0..] == named;
    for i := 0 to |named|
      invariant out.text + NamedText(named[i..], cal) == old(out.text) + NamedText(named, cal)
    {
      NamedStep(named, i, cal);
      out.Push(" :");
      out.Push(named[i].key);
      out.Push(" ");
      WriteTerm(named[i].value, cal, out);
    }
    assert named[|named|..] == [];
    NoArgsLeft(cal);
  }

  /** `canonical_predicate_inner`. */
  method WritePredicate(p: Predicate, cal: Calendar, out: Output)
    modifies out
    ensures out.text == old(out.text) + PredicateText(p, cal)
    decreases p, 0
  {
    hide ArgsText, NamedText, HeadText;
    out.Push("(");
    out.Push(HeadText(p.head));
    WriteArgs(p.args, cal, out);
    WriteNamed(p.named, cal, out);
    out.Push(")");
  }

  /** The `:deps` field, left out when there are none. */
  method WriteDeps(deps: seq<Text>, out: Output)
    modifies out
    ensures out.text == old(out.text) + DepsText(deps)
  {
    hide IdsText;
    if deps != [] {
      out.Push(" :deps [");
      out.Push(deps[0]);
      ghost var before := out.text;
      for i := 1 to |deps|
        invariant out.text + IdsText(deps[i..]) == before + IdsText(deps[1..])
      {
        IdsStep(deps, i);
        out.Push(" ");
        out.Push(deps[i]);
      }
      assert deps[|deps|..] == [];
      NoIdsLeft();
      out.Push("]");
      Associates(old(out.text), " :deps [", deps[0]);
      Associates(old(out.text), " :deps [" + deps[0], IdsText(deps[1..]));
      Associates(old(out.text), " :deps [" + deps[0] + IdsText(deps[1..]), "]");
    }
  }

  lemma NoIdsLeft()
    ensures IdsText([]) == []
  {
  }

  method WriteContent(n: Node, cal: Calendar, out: Output)
    modifies out
    ensures out.text == old(out.text) + ContentText(n, cal)
  {
    hide PredicateText, ValidityText, ProvenanceText;
    out.Push(" :pred ");
    WritePredicate(n.pred, cal, out);
    out.Push(" :valid ");
    out.Push(ValidityText(n.validity, cal));
    out.Push(" :src ");
    out.Push(ProvenanceText(n.provenance));
  }

  method WriteWeights(n: Node, out: Output)
    modifies out
    ensures out.text == old(out.text) + WeightText(n)
  {
    hide ScoreText, PermissionText;
    out.Push(" :conf ");
    out.Push(ScoreText(n.confidence));
    out.Push(" :auth ");
    out.Push(ScoreText(n.authority));
    out.Push(" :perm ");
    out.Push(PermissionText(n.permissions));
  }

  method WriteNote(note: Option<Text>, out: Output)
    modifies out
    ensures out.text == old(out.text) + NoteText(note)
  {
    hide Escape;
    if note.Some? {
      out.Push(" :note ");
      WriteQuoted(note.value, out);
    }
  }

  method WriteNode(n: Node, cal: Calendar, out: Output)
    modifies out
    ensures out.text == old(out.text) + NodeText(n, cal)
  {
    hide ContentText, WeightText, DepsText, NoteText;
    out.Push("(node ");
    out.Push(n.id);
    assert out.text == old(out.text) + ("(node " + n.id);
    WriteContent(n, cal, out);
    WriteWeights(n, out);
    WriteDeps(n.deps, out);
    WriteNote(n.note, out);
    NodePieces(old(out.text), "(node " + n.id, ContentText(n, cal), WeightText(n), DepsText(n.deps), NoteText(n.note));
    out.Push(")");
  }

  lemma NodePieces(before: Text, h: Text, c: Text, w: Text, d: Text, o: Text)
    ensures before + h + c + w + d + o + ")" == before + (h + (c + w + d + o) + ")")
  {
  }

  /** `canonical`. */
  method Canonical(n: Node, cal: Calendar) returns (text: Text)
    ensures text == NodeText(n, cal)
  {
    hide NodeText;
    var out := new Output();
    WriteNode(n, cal, out);
    text := out.text;
  }

  lemma AllStep(nodes: seq<Node>, i: nat, cal: Calendar)
    requires i < |nodes|
    ensures AllText(nodes[i..], cal) == NodeText(nodes[i], cal) + ("\n" + AllText(nodes[i + 1..], cal))
  {
    hide NodeText;
    assert nodes[i..][1..] == nodes[i + 1..];
  }

  /** `canonical_all`. */
  method CanonicalAll(nodes: seq<Node>, cal: Calendar) returns (text: Text)
    ensures text == AllText(nodes, cal)
  {
    hide NodeText, AllText;
    var out := new Output();
    assert nodes[0..] == nodes;
    for i := 0 to |nodes|
      invariant fresh(out)
      invariant out.text + AllText(nodes[i..], cal) == AllText(nodes, cal)
    {
      AllStep(nodes, i, cal);
      AllPieces(out.text, NodeText(nodes[i], cal), AllText(nodes[i + 1..], cal));
      WriteNode(nodes[i], cal, out);
      out.Push("\n");
    }
    NoNodes(nodes[|nodes|..], cal);
    text := out.text;
  }

  lemma AllPieces(before: Text, node: Text, rest: Text)
    ensures before + (node + ("\n" + rest)) == before + node + "\n" + rest
  {
  }

  lemma NoNodes(nodes: seq<Node>, cal: Calendar)
    requires nodes == []
    ensures AllText(nodes, cal) == []
  {
  }
}
