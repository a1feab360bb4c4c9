/**
 Schema validation of a JSON token stream. The values and the object and array grammar are those
 of sections 3, 4 and 5 of RFC 8259; names within an object must be unique.
 */
module JsonSchema {
  import opened Domain

  /** What the decoder hands out, one at a time; Malformed is where the text stops being JSON. */
  datatype Token =
    | BeginObject | EndObject | BeginArray | EndArray
    | Text(text: string) | Literal(literal: string) | NullToken | Malformed

  datatype Tree =
    | Null
    | Atom(token: Token)
    | Array(items: seq<Tree>)
    | Object(members: seq<Member>)

  datatype Member = Member(name: string, value: Tree)

  /** The shape of the destination: anything but a struct, a slice or a reference to one is a scalar. */
  datatype Schema =
    | Scalar
    | Slice(item: Schema)
    | Struct(fields: map<string, Schema>, required: seq<string>)
    | Indirect(target: Schema)

  const MAX_DEPTH := 16

  predicate IsAtom(t: Token) {
    t.Text? || t.Literal?
  }

  /** A tree that some JSON text stands for: its leaves are strings, numbers and booleans. */
  predicate Proper(t: Tree) {
    match t
    case Null => true
    case Atom(a) => a.Text? || a.Literal?
    case Array(items) => forall x <- items :: Proper(x)
    case Object(members) => forall m <- members :: Proper(m.value)
  }

  // ---- Trees as tokens ----

  function Encode(t: Tree): seq<Token>
    decreases t
  {
    match t
    case Null => [NullToken]
    case Atom(a) => [a]
    case Array(items) => [BeginArray] + EncodeItems(items) + [EndArray]
    case Object(members) => [BeginObject] + EncodeMembers(members) + [EndObject]
  }

  function EncodeItems(items: seq<Tree>): seq<Token>
    decreases items
  {
    if items == [] then [] else Encode(items[0]) + EncodeItems(items[1..])
  }

  function EncodeMembers(members: seq<Member>): seq<Token>
    decreases members
  {
    if members == [] then []
    else [Text(members[0].name)] + Encode(members[0].value) + EncodeMembers(members[1..])
  }

  // ---- Reading a tree back ----

  /** The value at the front and what follows it. */
  function Parse(ts: seq<Token>): (r: Option<(Tree, seq<Token>)>)
    ensures r.Some? ==> |r.value.1| < |ts|
    decreases |ts|, 0
  {
    if ts == [] then None
    else match ts[0]
      case NullToken => Some((Null, ts[1..]))
      case BeginArray =>
        (match ParseItems(ts[1..])
         case None => None
         case Some(p) => Some((Array(p.0), p.1)))
      case BeginObject =>
        (match ParseMembers(ts[1..])
         case None => None
         case Some(p) => Some((Object(p.0), p.1)))
      case _ => if IsAtom(ts[0]) then Some((Atom(ts[0]), ts[1..])) else None
  }

  function ParseItems(ts: seq<Token>): (r: Option<(seq<Tree>, seq<Token>)>)
    ensures r.Some? ==> |r.value.1| < |ts|
    decreases |ts|, 1
  {
    if ts == [] then None
    else if ts[0].EndArray? then Some(([], ts[1..]))
    else match Parse(ts)
      case None => None
      case Some(first) =>
        match ParseItems(first.1)
        case None => None
        case Some(others) => Some(([first.0] + others.0, others.1))
  }

  function ParseMembers(ts: seq<Token>): (r: Option<(seq<Member>, seq<Token>)>)
    ensures r.Some? ==> |r.value.1| < |ts|
    decreases |ts|, 1
  {
    if ts == [] then None
    else if ts[0].EndObject? then Some(([], ts[1..]))
    else if !ts[0].Text? then None
    else match Parse(ts[1..])
      case None => None
      case Some(first) =>
        match ParseMembers(first.1)
        case None => None
        case Some(others) => Some(([Member(ts[0].text, first.0)] + others.0, others.1))
  }

  lemma {:induction false} ParsedIsEncoded(ts: seq<Token>)
    requires Parse(ts).Some?
    ensures var (t, rest) := Parse(ts).value; Proper(t) && ts == Encode(t) + rest
    decreases |ts|, 0
  {
    var t := Parse(ts).value.0;
    if ts[0].BeginArray? {
      ItemsAreEncoded(ts[1..]);
      assert ts == [BeginArray] + ts[1..];
      assert [EndArray] == [EndArray] + [];
    } else if ts[0].BeginObject? {
      MembersAreEncoded(ts[1..]);
      assert ts == [BeginObject] + ts[1..];
    } else {
      assert ts == [ts[0]] + ts[1..];
    }
  }

  lemma {:induction false} ItemsAreEncoded(ts: seq<Token>)
    requires ParseItems(ts).Some?
    ensures var (items, rest) := ParseItems(ts).value;
      (forall x <- items :: Proper(x)) && ts == EncodeItems(items) + [EndArray] + rest
    decreases |ts|, 1
  {
    if !ts[0].EndArray? {
      ParsedIsEncoded(ts);
      var (first, middle) := Parse(ts).value;
      ItemsAreEncoded(middle);
      var others := ParseItems(middle).value.0;
      assert ([first] + others)[1..] == others;
    }
  }

  lemma {:induction false} MembersAreEncoded(ts: seq<Token>)
    requires ParseMembers(ts).Some?
    ensures var (members, rest) := ParseMembers(ts).value;
      (forall m <- members :: Proper(m.value)) && ts == EncodeMembers(members) + [EndObject] + rest
    decreases |ts|, 1
  {
    if !ts[0].EndObject? {
      ParsedIsEncoded(ts[1..]);
      var (first, middle) := Parse(ts[1..]).value;
      MembersAreEncoded(middle);
      var (others, rest) := ParseMembers(middle).value;
      MembersOfCons(Member(ts[0].text, first), others);
      assert ts == [ts[0]] + ts[1..];
      Regroup([ts[0]], Encode(first), EncodeMembers(others), [EndObject], rest);
    }
  }

  lemma MembersOfCons(first: Member, others: seq<Member>)
    ensures EncodeMembers([first] + others) == [Text(first.name)] + Encode(first.value) + EncodeMembers(others)
  {
    assert ([first] + others)[1..] == others;
  }

  lemma Regroup(a: seq<Token>, b: seq<Token>, c: seq<Token>, d: seq<Token>, e: seq<Token>)
    ensures a + (b + (c + d + e)) == a + b + c + d + e
  {
  }

  /** A tree's tokens, whatever follows them, are read back as that tree. */
  lemma {:induction false} EncodedIsParsed(t: Tree, rest: seq<Token>)
    requires Proper(t)
    ensures Parse(Encode(t) + rest) == Some((t, rest))
    decreases t
  {
    match t {
      case Null =>
        assert (Encode(t) + rest)[1..] == rest;
      case Atom(a) =>
        assert (Encode(t) + rest)[1..] == rest;
      case Array(items) =>
        ItemsAreParsed(items, rest);
        assert (Encode(t) + rest)[1..] == EncodeItems(items) + [EndArray] + rest;
      case Object(members) =>
        MembersAreParsed(members, rest);
        assert (Encode(t) + rest)[1..] == EncodeMembers(members) + [EndObject] + rest;
    }
  }

  lemma FirstToken(t: Tree)
    requires Proper(t)
    ensures Encode(t) != [] && !Encode(t)[0].EndArray? && !Encode(t)[0].EndObject?
  {
  }

  lemma {:induction false} ItemsAreParsed(items: seq<Tree>, rest: seq<Token>)
    requires forall x <- items :: Proper(x)
    ensures ParseItems(EncodeItems(items) + [EndArray] + rest) == Some((items, rest))
    decreases items
  {
    if items != [] {
      var first, others := items[0], items[1..];
      var after := EncodeItems(others) + [EndArray] + rest;
      EncodedIsParsed(first, after);
      ItemsAreParsed(others, rest);
      assert items == [first] + others;
      FirstToken(first);
      ItemIsParsed(first, others, Encode(first) + after, rest);
      assert EncodeItems(items) + [EndArray] + rest == Encode(first) + after;
    }
  }

  lemma ItemIsParsed(first: Tree, others: seq<Tree>, ts: seq<Token>, rest: seq<Token>)
    requires ts != [] && !ts[0].EndArray? && Parse(ts).Some? && Parse(ts).value.0 == first
    requires ParseItems(Parse(ts).value.1) == Some((others, rest))
    ensures ParseItems(ts) == Some(([first] + others, rest))
  {
  }

  lemma {:induction false} MembersAreParsed(members: seq<Member>, rest: seq<Token>)
    requires forall m <- members :: Proper(m.value)
    ensures ParseMembers(EncodeMembers(members) + [EndObject] + rest) == Some((members, rest))
    decreases members
  {
    if members != [] {
      var first, others := members[0], members[1..];
      var after := EncodeMembers(others) + [EndObject] + rest;
      EncodedIsParsed(first.value, after);
      MembersAreParsed(others, rest);
      assert members == [first] + others;
      MemberIsParsed(first, others, Encode(first.value) + after, rest);
      MembersOfCons(first, others);
      Regroup([Text(first.name)], Encode(first.value), EncodeMembers(others), [EndObject], rest);
    }
  }

  lemma MemberIsParsed(first: Member, others: seq<Member>, ts: seq<Token>, rest: seq<Token>)
    requires Parse(ts).Some? && Parse(ts).value.0 == first.value
    requires ParseMembers(Parse(ts).value.1) == Some((others, rest))
    ensures ParseMembers([Text(first.name)] + ts) == Some(([first] + others, rest))
  {
    assert ([Text(first.name)] + ts)[1..] == ts;
  }

  // ---- Names ----

  /** Simple case folding, as far as it can meet an ASCII field name. */
  function Folded(c: char): char {
    if 'A' <= c <= 'Z' then c - 'A' + 'a'
    else if c == '\U{017F}' then 's'
    else if c == '\U{212A}' then 'k'
    else c
  }

  predicate EqualFold(a: string, b: string) {
    |a| == |b| && forall i | 0 <= i < |a| :: Folded(a[i]) == Folded(b[i])
  }

  /** The same letter up to case; the long s and the Kelvin sign are letters of other cases too. */
  predicate SameLetter(a: char, b: char) {
    || a == b || CaseOf(a, b) || CaseOf(b, a)
    || (a == '\U{017F}' && b in "sS") || (b == '\U{017F}' && a in "sS")
    || (a == '\U{212A}' && b in "kK") || (b == '\U{212A}' && a in "kK")
  }

  predicate CaseOf(upper: char, lower: char) {
    'A' <= upper <= 'Z' && lower as int == upper as int + 32
  }

  /** The names differ at most in the case of their letters. */
  predicate SpelledAlike(name: string, other: string) {
    |name| == |other| && forall i | 0 <= i < |name| :: SameLetter(name[i], other[i])
  }

  lemma FoldedMeans(a: char, b: char)
    ensures Folded(a) == Folded(b) <==> SameLetter(a, b)
  {
  }

  lemma EqualFoldMeans(a: string, b: string)
    ensures EqualFold(a, b) <==> SpelledAlike(a, b)
  {
    if |a| == |b| {
      forall i | 0 <= i < |a| ensures Folded(a[i]) == Folded(b[i]) <==> SameLetter(a[i], b[i]) {
        FoldedMeans(a[i], b[i]);
      }
    }
  }

  predicate Miscased(name: string, fields: map<string, Schema>): (r: bool)
    ensures r <==> exists n <- fields :: SpelledAlike(name, n)
  {
    assert forall n <- fields :: EqualFold(name, n) <==> SpelledAlike(name, n) by {
      forall n | n in fields ensures EqualFold(name, n) <==> SpelledAlike(name, n) { EqualFoldMeans(name, n); }
    }
    exists n <- fields :: EqualFold(name, n)
  }

  // ---- What a schema asks of a tree ----

  function Underlying(s: Schema): (r: Schema)
    ensures !r.Indirect?
  {
    if s.Indirect? then Underlying(s.target) else s
  }

  predicate DistinctNames(members: seq<Member>) {
    forall i, j | 0 <= i < j < |members| :: members[i].name != members[j].name
  }

  predicate HasName(members: seq<Member>, name: string) {
    exists m <- members :: m.name == name
  }

  predicate Conforms(t: Tree, s: Schema, depth: nat, tolerant: bool)
    decreases t
  {
    depth <= MAX_DEPTH && match Underlying(s)
      case Scalar => t.Atom?
      case Slice(item) => t.Array? && forall x <- t.items :: Conforms(x, item, depth + 1, tolerant)
      case Struct(fields, required) =>
        t.Object? && DistinctNames(t.members)
        && (forall n <- required :: HasName(t.members, n))
        && forall m <- t.members :: MemberConforms(m, fields, depth, tolerant)
  }

  predicate MemberConforms(m: Member, fields: map<string, Schema>, depth: nat, tolerant: bool)
    decreases m
  {
    if m.name in fields then Conforms(m.value, fields[m.name], depth + 1, tolerant)
    else tolerant && forall n <- fields :: !SpelledAlike(m.name, n)
  }

  // ---- The validator ----

  predicate More(ts: seq<Token>) {
    ts != [] && !ts[0].EndObject? && !ts[0].EndArray?
  }

  /** What is left when the value at the front is valid. */
  function ValidValue(ts: seq<Token>, s: Schema, depth: nat, tolerant: bool): (r: Option<seq<Token>>)
    ensures r.Some? ==> |r.value| < |ts|
    decreases |ts|, 0
  {
    if depth > MAX_DEPTH || ts == [] || ts[0].Malformed? || ts[0].NullToken? then None
    else match Underlying(s)
      case Struct(fields, required) =>
        if ts[0].BeginObject? then ValidMembers(ts[1..], fields, required, {}, depth, tolerant) else None
      case Slice(item) =>
        if ts[0].BeginArray? then ValidItems(ts[1..], item, depth, tolerant) else None
      case _ =>
        if IsAtom(ts[0]) then Some(ts[1..]) else None
  }

  function ValidMembers(ts: seq<Token>, fields: map<string, Schema>, required: seq<string>, seen: set<string>,
                        depth: nat, tolerant: bool): (r: Option<seq<Token>>)
    ensures r.Some? ==> |r.value| < |ts|
    decreases |ts|, 1
  {
    if !More(ts) then
      if ts != [] && ts[0].EndObject? && (forall n <- required :: n in seen) then Some(ts[1..]) else None
    else if !ts[0].Text? then None
    else
      var name := ts[0].text;
      if (name !in fields && !tolerant) || name in seen then None
      else
        match (if name !in fields then Skipped(ts[1..], name, fields)
               else ValidValue(ts[1..], fields[name], depth + 1, tolerant))
        case None => None
        case Some(rest) => ValidMembers(rest, fields, required, seen + {name}, depth, tolerant)
  }

  /** An unknown field's value is taken whole, unless its name is a known one in another case. */
  function Skipped(ts: seq<Token>, name: string, fields: map<string, Schema>): (r: Option<seq<Token>>)
    ensures r.Some? ==> |r.value| < |ts|
  {
    if Miscased(name, fields) then None
    else match Parse(ts)
      case None => None
      case Some(p) => Some(p.1)
  }

  function ValidItems(ts: seq<Token>, item: Schema, depth: nat, tolerant: bool): (r: Option<seq<Token>>)
    ensures r.Some? ==> |r.value| < |ts|
    decreases |ts|, 1
  {
    if !More(ts) then
      if ts != [] && ts[0].EndArray? then Some(ts[1..]) else None
    else match ValidValue(ts, item, depth + 1, tolerant)
      case None => None
      case Some(rest) => ValidItems(rest, item, depth, tolerant)
  }

  // ---- It accepts exactly the conforming trees ----

  /** What is left of a parse that meets a condition. */
  function RestIf<T>(p: Option<(T, seq<Token>)>, condition: bool): Option<seq<Token>> {
    if p.Some? && condition then Some(p.value.1) else None
  }

  lemma {:induction false} ValueAgrees(ts: seq<Token>, s: Schema, depth: nat, tolerant: bool)
    ensures ValidValue(ts, s, depth, tolerant) ==
      RestIf(Parse(ts), Parse(ts).Some? && Conforms(Parse(ts).value.0, s, depth, tolerant))
    decreases |ts|, 0
  {
    if depth <= MAX_DEPTH && ts != [] {
      match Underlying(s) {
        case Struct(fields, required) =>
          if ts[0].BeginObject? {
            MembersAgree(ts[1..], fields, required, {}, depth, tolerant);
          }
        case Slice(item) =>
          if ts[0].BeginArray? {
            ItemsAgree(ts[1..], item, depth, tolerant);
          }
        case Scalar =>
      }
    }
  }

  predicate ItemsConform(items: seq<Tree>, item: Schema, depth: nat, tolerant: bool) {
    forall x <- items :: Conforms(x, item, depth + 1, tolerant)
  }

  lemma ItemsConformStep(first: Tree, others: seq<Tree>, item: Schema, depth: nat, tolerant: bool)
    ensures ItemsConform([first] + others, item, depth, tolerant) <==>
      Conforms(first, item, depth + 1, tolerant) && ItemsConform(others, item, depth, tolerant)
  {
    var all := [first] + others;
    assert first in all && forall x <- others :: x in all;
    assert forall x <- all :: x == first || x in others;
  }

  lemma {:induction false} ItemsAgree(ts: seq<Token>, item: Schema, depth: nat, tolerant: bool)
    ensures ValidItems(ts, item, depth, tolerant) ==
      RestIf(ParseItems(ts), ParseItems(ts).Some? && ItemsConform(ParseItems(ts).value.0, item, depth, tolerant))
    decreases |ts|, 1
  {
    if More(ts) {
      ValueAgrees(ts, item, depth + 1, tolerant);
      if Parse(ts).Some? {
        var (first, rest) := Parse(ts).value;
        ItemsAgree(rest, item, depth, tolerant);
        if ParseItems(rest).Some? {
          ItemsConformStep(first, ParseItems(rest).value.0, item, depth, tolerant);
        }
      }
    }
  }

  /** The members still to come conform, given the names already seen. */
  predicate MembersConform(members: seq<Member>, fields: map<string, Schema>, required: seq<string>, seen: set<string>,
                           depth: nat, tolerant: bool) {
    && DistinctNames(members) && (forall m <- members :: m.name !in seen)
    && (forall n <- required :: n in seen || HasName(members, n))
    && forall m <- members :: MemberConforms(m, fields, depth, tolerant)
  }

  lemma MembersConformStep(first: Member, others: seq<Member>, fields: map<string, Schema>, required: seq<string>,
                           seen: set<string>, depth: nat, tolerant: bool)
    ensures MembersConform([first] + others, fields, required, seen, depth, tolerant) <==>
      && first.name !in seen && MemberConforms(first, fields, depth, tolerant)
      && MembersConform(others, fields, required, seen + {first.name}, depth, tolerant)
  {
    var all := [first] + others;
    assert all[0] == first && forall i | 0 <= i < |others| :: all[i + 1] == others[i];
    forall n ensures HasName(all, n) <==> n == first.name || HasName(others, n) {
      if HasName(others, n) {
        var m :| m in others && m.name == n;
        assert m in all;
      }
      assert first in all;
    }
    DistinctStep(first, others);
  }

  lemma DistinctStep(first: Member, others: seq<Member>)
    ensures DistinctNames([first] + others) <==> DistinctNames(others) && forall m <- others :: m.name != first.name
  {
    var all := [first] + others;
    assert forall i | 0 <= i < |others| :: all[i + 1] == others[i];
    if DistinctNames(all) {
      forall i, j | 0 <= i < j < |others| ensures others[i].name != others[j].name {
        assert all[i + 1].name != all[j + 1].name;
      }
      forall m <- others ensures m.name != first.name {
        var j :| 0 <= j < |others| && others[j] == m;
        assert all[0].name != all[j + 1].name;
      }
    }
  }

  lemma {:induction false} MembersAgree(ts: seq<Token>, fields: map<string, Schema>, required: seq<string>,
                                        seen: set<string>, depth: nat, tolerant: bool)
    ensures ValidMembers(ts, fields, required, seen, depth, tolerant) ==
      RestIf(ParseMembers(ts), ParseMembers(ts).Some?
        && MembersConform(ParseMembers(ts).value.0, fields, required, seen, depth, tolerant))
    decreases |ts|, 1
  {
    if More(ts) && ts[0].Text? {
      var name := ts[0].text;
      if name in fields {
        ValueAgrees(ts[1..], fields[name], depth + 1, tolerant);
      }
      if Parse(ts[1..]).Some? {
        var (first, rest) := Parse(ts[1..]).value;
        MembersAgree(rest, fields, required, seen + {name}, depth, tolerant);
        if ParseMembers(rest).Some? {
          MembersConformStep(Member(name, first), ParseMembers(rest).value.0, fields, required, seen, depth, tolerant);
        }
      }
    }
  }

  /**
   The validator accepts exactly the token sequences of conforming trees, and leaves just what
   follows the tree.
   */
  lemma AcceptsExactlyConforming(ts: seq<Token>, s: Schema, depth: nat, tolerant: bool, rest: seq<Token>)
    ensures ValidValue(ts, s, depth, tolerant) == Some(rest) <==>
      exists t :: Proper(t) && ts == Encode(t) + rest && Conforms(t, s, depth, tolerant)
  {
    ValueAgrees(ts, s, depth, tolerant);
    if ValidValue(ts, s, depth, tolerant) == Some(rest) {
      ParsedIsEncoded(ts);
      var t := Parse(ts).value.0;
      assert Proper(t) && ts == Encode(t) + rest && Conforms(t, s, depth, tolerant);
    }
    if t :| Proper(t) && ts == Encode(t) + rest && Conforms(t, s, depth, tolerant) {
      EncodedIsParsed(t, rest);
    }
  }

  /** A token sequence is the encoding of at most one tree, followed by at most one rest. */
  lemma EncodingIsPrefixFree(t: Tree, u: Tree, rest: seq<Token>, left: seq<Token>)
    requires Proper(t) && Proper(u) && Encode(t) + rest == Encode(u) + left
    ensures t == u && rest == left
  {
    EncodedIsParsed(t, rest);
    EncodedIsParsed(u, left);
  }

  /** One whole document: a valid value and then the end. */
  predicate ValidDocument(ts: seq<Token>, s: Schema, tolerant: bool) {
    ValidValue(ts, s, 0, tolerant) == Some([])
  }

  lemma DocumentIsOneTree(ts: seq<Token>, s: Schema, tolerant: bool)
    ensures ValidDocument(ts, s, tolerant) <==>
      exists t :: Proper(t) && ts == Encode(t) && Conforms(t, s, 0, tolerant)
    ensures forall t, u :: Proper(t) && Proper(u) && ts == Encode(t) && ts == Encode(u) ==> t == u
  {
    AcceptsExactlyConforming(ts, s, 0, tolerant, []);
    if ValidDocument(ts, s, tolerant) {
      var t :| Proper(t) && ts == Encode(t) + [] && Conforms(t, s, 0, tolerant);
      assert ts == Encode(t);
    }
    if t :| Proper(t) && ts == Encode(t) && Conforms(t, s, 0, tolerant) {
      assert ts == Encode(t) + [];
    }
    forall t, u | Proper(t) && Proper(u) && ts == Encode(t) && ts == Encode(u) ensures t == u {
      assert Encode(t) + [] == Encode(u) + [];
      EncodingIsPrefixFree(t, u, [], []);
    }
  }

  // ---- Tolerance is strictness about the known fields ----

  /** The tree without the members its schema does not know. */
  function Project(t: Tree, s: Schema): Tree
    decreases t
  {
    match Underlying(s)
    case Scalar => t
    case Slice(item) => if t.Array? then Array(ProjectItems(t.items, item)) else t
    case Struct(fields, required) => if t.Object? then Object(ProjectMembers(t.members, fields)) else t
  }

  function ProjectItems(items: seq<Tree>, item: Schema): (r: seq<Tree>)
    ensures |r| == |items| && forall i | 0 <= i < |items| :: r[i] == Project(items[i], item)
    decreases items
  {
    if items == [] then [] else [Project(items[0], item)] + ProjectItems(items[1..], item)
  }

  function ProjectMembers(members: seq<Member>, fields: map<string, Schema>): seq<Member>
    decreases members
  {
    if members == [] then []
    else
      var first := members[0];
      (if first.name in fields then [Member(first.name, Project(first.value, fields[first.name]))] else [])
      + ProjectMembers(members[1..], fields)
  }

  /** Every required name is the name of a field, throughout. */
  predicate Selectable(s: Schema) {
    match s
    case Scalar => true
    case Slice(item) => Selectable(item)
    case Indirect(target) => Selectable(target)
    case Struct(fields, required) =>
      (forall n <- required :: n in fields) && forall n <- fields :: Selectable(fields[n])
  }

  lemma {:induction false} UnderlyingSelectable(s: Schema)
    requires Selectable(s)
    ensures Selectable(Underlying(s))
  {
    if s.Indirect? { UnderlyingSelectable(s.target); }
  }

  /** The known members, in order, each with its value projected. */
  lemma {:induction false} ProjectedMember(members: seq<Member>, fields: map<string, Schema>, m: Member)
    ensures m in ProjectMembers(members, fields) <==>
      exists x <- members :: x.name in fields && m == Member(x.name, Project(x.value, fields[x.name]))
    decreases members
  {
    if members != [] {
      ProjectedMember(members[1..], fields, m);
      assert members == [members[0]] + members[1..];
    }
  }

  lemma {:induction false} ProjectedDistinct(members: seq<Member>, fields: map<string, Schema>)
    requires DistinctNames(members)
    ensures DistinctNames(ProjectMembers(members, fields))
    decreases members
  {
    if members != [] {
      var first, others := members[0], members[1..];
      assert members == [first] + others;
      DistinctStep(first, others);
      ProjectedDistinct(others, fields);
      if first.name in fields {
        var kept := Member(first.name, Project(first.value, fields[first.name]));
        forall m <- ProjectMembers(others, fields) ensures m.name != kept.name {
          ProjectedMember(others, fields, m);
        }
        DistinctStep(kept, ProjectMembers(others, fields));
      }
    }
  }

  /** Every struct the tree is matched against requires only names it has fields for. */
  predicate RequiredKnown(t: Tree, s: Schema)
    decreases t
  {
    match Underlying(s)
    case Scalar => true
    case Slice(item) => t.Array? ==> forall x <- t.items :: RequiredKnown(x, item)
    case Struct(fields, required) => t.Object? ==>
      && (forall n <- required :: n in fields)
      && forall m <- t.members :: m.name in fields ==> RequiredKnown(m.value, fields[m.name])
  }

  lemma {:induction false} SelectableIsKnown(t: Tree, s: Schema)
    requires Selectable(s)
    ensures RequiredKnown(t, s)
    decreases t
  {
    UnderlyingSelectable(s);
    match Underlying(s) {
      case Scalar =>
      case Slice(item) =>
        if t.Array? {
          forall x <- t.items ensures RequiredKnown(x, item) { SelectableIsKnown(x, item); }
        }
      case Struct(fields, required) =>
        if t.Object? {
          forall m <- t.members | m.name in fields ensures RequiredKnown(m.value, fields[m.name]) {
            SelectableIsKnown(m.value, fields[m.name]);
          }
        }
    }
  }

  /**
   What tolerant mode accepts, strict mode accepts with the unknown fields taken out, exactly if
   no required name is one of those.
   */
  lemma {:induction false} TolerantProjectsToStrict(t: Tree, s: Schema, depth: nat)
    requires Conforms(t, s, depth, true)
    ensures Conforms(Project(t, s), s, depth, false) <==> RequiredKnown(t, s)
    decreases t
  {
    match Underlying(s) {
      case Scalar =>
      case Slice(item) => ItemsProject(t.items, item, depth);
      case Struct(fields, required) =>
        ProjectedDistinct(t.members, fields);
        NamesProject(t.members, fields, required);
        MembersProject(t.members, fields, depth);
    }
  }

  lemma {:induction false} ItemsProject(items: seq<Tree>, item: Schema, depth: nat)
    requires ItemsConform(items, item, depth, true)
    ensures ItemsConform(ProjectItems(items, item), item, depth, false) <==> forall x <- items :: RequiredKnown(x, item)
    decreases items
  {
    if items != [] {
      assert items[0] in items && forall x <- items[1..] :: x in items;
      TolerantProjectsToStrict(items[0], item, depth + 1);
      ItemsProject(items[1..], item, depth);
      ItemsConformStep(Project(items[0], item), ProjectItems(items[1..], item), item, depth, false);
      assert items == [items[0]] + items[1..];
    }
  }

  lemma NamesProject(members: seq<Member>, fields: map<string, Schema>, required: seq<string>)
    requires forall n <- required :: HasName(members, n)
    ensures (forall n <- required :: HasName(ProjectMembers(members, fields), n)) <==>
      forall n <- required :: n in fields
  {
    forall n <- required ensures HasName(ProjectMembers(members, fields), n) <==> n in fields {
      if n in fields {
        var x :| x in members && x.name == n;
        ProjectedMember(members, fields, Member(n, Project(x.value, fields[n])));
      }
      if HasName(ProjectMembers(members, fields), n) {
        var m :| m in ProjectMembers(members, fields) && m.name == n;
        ProjectedMember(members, fields, m);
      }
    }
  }

  predicate AllConform(members: seq<Member>, fields: map<string, Schema>, depth: nat, tolerant: bool) {
    forall m <- members :: MemberConforms(m, fields, depth, tolerant)
  }

  lemma AllConformStep(first: Member, others: seq<Member>, fields: map<string, Schema>, depth: nat, tolerant: bool)
    ensures AllConform([first] + others, fields, depth, tolerant) <==>
      MemberConforms(first, fields, depth, tolerant) && AllConform(others, fields, depth, tolerant)
  {
    var all := [first] + others;
    assert first in all && forall m <- others :: m in all;
    assert forall m <- all :: m == first || m in others;
  }

  lemma {:induction false} MembersProject(members: seq<Member>, fields: map<string, Schema>, depth: nat)
    requires AllConform(members, fields, depth, true)
    ensures AllConform(ProjectMembers(members, fields), fields, depth, false) <==>
      forall m <- members :: m.name in fields ==> RequiredKnown(m.value, fields[m.name])
    decreases members
  {
    if members != [] {
      var first, others := members[0], members[1..];
      assert first in members && forall m <- others :: m in members;
      assert members == [first] + others;
      AllConformStep(first, others, fields, depth, true);
      MembersProject(others, fields, depth);
      if first.name in fields {
        TolerantProjectsToStrict(first.value, fields[first.name], depth + 1);
        var kept := Member(first.name, Project(first.value, fields[first.name]));
        AllConformStep(kept, ProjectMembers(others, fields), fields, depth, false);
        assert ProjectMembers(members, fields) == [kept] + ProjectMembers(others, fields);
      }
    }
  }

  /** The condition cannot be dropped: a struct that requires a name it has no field for. */
  lemma RequiredUnknownDiffers()
    ensures var s := Struct(map[], ["-"]); var t := Object([Member("-", Atom(Literal("1")))]);
      Conforms(t, s, 0, true) && !Conforms(Project(t, s), s, 0, false)
  {
    var s := Struct(map[], ["-"]);
    var t := Object([Member("-", Atom(Literal("1")))]);
    assert t.members[0] in t.members;
    assert HasName(t.members, "-") && !HasName([], "-");
    assert "-" in s.required;
  }

  /** What strict mode accepts, tolerant mode accepts, and nothing is there to take out. */
  lemma {:induction false} StrictIsTolerant(t: Tree, s: Schema, depth: nat)
    requires Conforms(t, s, depth, false)
    ensures Conforms(t, s, depth, true) && Project(t, s) == t
    decreases t
  {
    match Underlying(s) {
      case Scalar =>
      case Slice(item) =>
        forall x <- t.items ensures Conforms(x, item, depth + 1, true) && Project(x, item) == x {
          StrictIsTolerant(x, item, depth + 1);
        }
      case Struct(fields, required) =>
        forall m <- t.members
          ensures MemberConforms(m, fields, depth, true) && Project(m.value, fields[m.name]) == m.value
        {
          assert MemberConforms(m, fields, depth, false);
          StrictIsTolerant(m.value, fields[m.name], depth + 1);
        }
        NothingProjected(t.members, fields);
    }
  }

  lemma {:induction false} NothingProjected(members: seq<Member>, fields: map<string, Schema>)
    requires forall m <- members :: m.name in fields && Project(m.value, fields[m.name]) == m.value
    ensures ProjectMembers(members, fields) == members
    decreases members
  {
    if members != [] {
      NothingProjected(members[1..], fields);
      assert members == [members[0]] + members[1..];
    }
  }

  // ---- The decoder ----

  /** A cursor over the tokens of a document, as the validator drives it. */
  class Decoder {
    const tokens: seq<Token>
    var position: nat

    ghost predicate Valid()
      reads this
    {
      position <= |tokens|
    }

    function Left(): seq<Token>
      reads this
      requires Valid()
    {
      tokens[position..]
    }

    constructor (tokens: seq<Token>)
      ensures Valid() && this.tokens == tokens && Left() == tokens
    {
      this.tokens, position := tokens, 0;
    }

    /** The next token, unless the text has ended or stops being JSON. */
    method Next() returns (token: Option<Token>)
      requires Valid()
      modifies this`position
      ensures Valid() && position >= old(position)
      ensures token.None? <==> old(Left()) == [] || old(Left())[0].Malformed?
      ensures token.Some? ==>
        token.value == old(Left())[0] && Left() == old(Left())[1..] && position == old(position) + 1
    {
      if position == |tokens| || tokens[position].Malformed? { return None; }
      token := Some(tokens[position]);
      position := position + 1;
    }

    /** A whole value of any kind, taken at once. */
    method Decode() returns (ok: bool)
      requires Valid()
      modifies this`position
      ensures Valid() && position >= old(position)
      ensures ok <==> Parse(old(Left())).Some?
      ensures ok ==> position > old(position) && Left() == Parse(old(Left())).value.1
    {
      var p := Parse(Left());
      if p.None? { return false; }
      ghost var before := Left();
      ParsedIsEncoded(Left());
      position := |tokens| - |p.value.1|;
      assert tokens[position..] == before[|before| - |p.value.1|..];
      return true;
    }

    method ValidateValue(s: Schema, depth: nat, tolerant: bool) returns (ok: bool)
      requires Valid()
      modifies this`position
      ensures Valid() && position >= old(position)
      ensures ok <==> ValidValue(old(Left()), s, depth, tolerant).Some?
      ensures ok ==> position > old(position) && Left() == ValidValue(old(Left()), s, depth, tolerant).value
      decreases |tokens| - position, 0
    {
      if depth > MAX_DEPTH { return false; }
      var target := s;
      while target.Indirect?
        invariant Underlying(target) == Underlying(s)
        decreases target
      {
        target := target.target;
      }
      var token := Next();
      if token.None? || token.value.NullToken? { return false; }
      match target {
        case Struct(fields, required) => ok := ValidateObject(fields, required, token.value, depth, tolerant);
        case Slice(item) => ok := ValidateArray(item, token.value, depth, tolerant);
        case Scalar => ok := IsAtom(token.value);
      }
    }

    method ValidateObject(fields: map<string, Schema>, required: seq<string>, first: Token, depth: nat, tolerant: bool)
      returns (ok: bool)
      requires Valid()
      modifies this`position
      ensures Valid() && position >= old(position)
      ensures ok <==> first.BeginObject? && ValidMembers(old(Left()), fields, required, {}, depth, tolerant).Some?
      ensures ok ==> Left() == ValidMembers(old(Left()), fields, required, {}, depth, tolerant).value
      decreases |tokens| - position, 1
    {
      if !first.BeginObject? { return false; }
      var seen: set<string> := {};
      while More(Left())
        invariant Valid() && position >= old(position)
        invariant ValidMembers(old(Left()), fields, required, {}, depth, tolerant)
          == ValidMembers(Left(), fields, required, seen, depth, tolerant)
        decreases |tokens| - position
      {
        var key := Next();
        if key.None? || !key.value.Text? { return false; }
        var name := key.value.text;
        if (name !in fields && !tolerant) || name in seen { return false; }
        seen := seen + {name};
        if name !in fields {
          if Miscased(name, fields) { return false; }
          var decoded := Decode();
          if !decoded { return false; }
        } else {
          var valid := ValidateValue(fields[name], depth + 1, tolerant);
          if !valid { return false; }
        }
      }
      var end := Next();
      if end.None? || !end.value.EndObject? { return false; }
      var i := 0;
      while i < |required|
        invariant 0 <= i <= |required|
        invariant forall j | 0 <= j < i :: required[j] in seen
      {
        if required[i] !in seen { return false; }
        i := i + 1;
      }
      return true;
    }

    method ValidateArray(item: Schema, first: Token, depth: nat, tolerant: bool) returns (ok: bool)
      requires Valid()
      modifies this`position
      ensures Valid() && position >= old(position)
      ensures ok <==> first.BeginArray? && ValidItems(old(Left()), item, depth, tolerant).Some?
      ensures ok ==> Left() == ValidItems(old(Left()), item, depth, tolerant).value
      decreases |tokens| - position, 1
    {
      if !first.BeginArray? { return false; }
      while More(Left())
        invariant Valid() && position >= old(position)
        invariant ValidItems(old(Left()), item, depth, tolerant) == ValidItems(Left(), item, depth, tolerant)
        decreases |tokens| - position
      {
        var valid := ValidateValue(item, depth + 1, tolerant);
        if !valid { return false; }
      }
      var end := Next();
      return end.Some? && end.value.EndArray?;
    }
  }

  method DecodeSchema(tokens: seq<Token>, s: Schema, tolerant: bool) returns (ok: bool)
    ensures ok <==> exists t :: Proper(t) && tokens == Encode(t) && Conforms(t, s, 0, tolerant)
  {
    DocumentIsOneTree(tokens, s, tolerant);
    var decoder := new Decoder(tokens);
    ok := decoder.ValidateValue(s, 0, tolerant);
    if ok {
      ok := decoder.position == |tokens|;
    }
  }
}
