/**
 What BODY and BINARY send of a message that was composed of entities: a part path (section 6.4.5.1 of RFC 9051)
 names an entity of the message, and the octets sent are that entity's own.
*/
module FetchParts {
  import opened Sets
  import opened MimeScan
  import MimeLines
  import opened MimeCompose
  import opened Fetch

  /** An entity inside a message, and whether the end of the message ends it rather than a delimiter. */
  datatype Place = Place(entity: Entity, whole: bool)

  /** Part n of a message: its n-th part if it is a multipart, else part 1 is the message itself. */
  function PartOf(p: Place, n: nat): (r: Option<Place>) {
    if p.entity.Multi? then (if 1 <= n <= |p.entity.parts| then Some(Place(p.entity.parts[n - 1], false)) else None)
    else if n == 1 then Some(p)
    else None
  }

  /** Part n of a part: of a multipart, or of the message it encloses. */
  function PartBelow(p: Place, n: nat): (r: Option<Place>) {
    match p.entity
    case Plain(_, _, _) => None
    case Multi(_, _, _, _, _, _, _) => PartOf(p, n)
    case Enclosing(_, _, message) => PartOf(Place(message, p.whole), n)
  }

  function PartsBelow(p: Place, path: seq<nat>): (r: Option<Place>)
    decreases |path|
  {
    if path == [] then Some(p)
    else
      match PartBelow(p, path[0])
      case None => None
      case Some(q) => PartsBelow(q, path[1..])
  }

  /** The entity a path names in a message. */
  function EntityAt(e: Entity, path: seq<nat>): (r: Option<Place>) {
    if path == [] then Some(Place(e, true))
    else
      match PartOf(Place(e, true), path[0])
      case None => None
      case Some(q) => PartsBelow(q, path[1..])
  }

  /** The body octets of an entity in its place. */
  function BodyAt(p: Place): (s: string) { if p.whole then Body(p.entity) else WithoutBreak(Body(p.entity)) }

  // --- the node of a path is the node of its entity ---------------------------------------------

  ghost predicate At(nodes: seq<Node>, id: Id, p: Place, t: string) {
    Matches(nodes, id, p.entity, t, p.whole)
  }

  ghost predicate SamePart(nodes: seq<Node>, id: Option<Id>, p: Option<Place>, t: string) {
    if p.None? then id.None? else id.Some? && id.value < |nodes| && At(nodes, id.value, p.value, t)
  }

  lemma {:induction false} PartMatches(nodes: seq<Node>, id: Id, e: Entity, n: nat, j: nat, t: string)
    requires e.Multi? && j < n <= |e.parts| && PartsMatch(nodes, id, e, n, t)
    ensures Matches(nodes, id + SizeUpTo(e, j), e.parts[j], t, false)
    decreases n
  {
    hide Matches, SizeUpTo;
    if j < n - 1 { PartMatches(nodes, id, e, n - 1, j, t); }
  }

  lemma MatchesNode(nodes: seq<Node>, id: Id, e: Entity, t: string, whole: bool)
    requires Matches(nodes, id, e, t, whole)
    ensures id < |nodes| && Found(nodes[id], id, e, t, whole) && KindIs(nodes[id], id, e, e.Width())
    ensures e.Multi? ==> PartsMatch(nodes, id, e, |e.parts|, t)
    ensures e.Enclosing? ==> Matches(nodes, id + 1, e.message, t, whole)
  {
  }

  lemma MessagePartIs(nodes: seq<Node>, id: Id, p: Place, n: nat, t: string)
    requires At(nodes, id, p, t)
    ensures id < |nodes| && SamePart(nodes, MessagePart(nodes, id, n), PartOf(p, n), t)
  {
    hide Matches, PartsMatch, Found;
    MatchesNode(nodes, id, p.entity, t, p.whole);
    if p.entity.Multi? && 1 <= n <= |p.entity.parts| {
      PartMatches(nodes, id, p.entity, |p.entity.parts|, n - 1, t);
      MatchesNode(nodes, id + SizeUpTo(p.entity, n - 1), p.entity.parts[n - 1], t, false);
    }
  }

  lemma SubPartIs(nodes: seq<Node>, id: Id, p: Place, n: nat, t: string)
    requires At(nodes, id, p, t)
    ensures id < |nodes| && (nodes[id].message.Some? ==> nodes[id].message.value < |nodes|)
    ensures SamePart(nodes, SubPart(nodes, id, n), PartBelow(p, n), t)
  {
    hide Matches, PartsMatch, Found;
    MatchesNode(nodes, id, p.entity, t, p.whole);
    match p.entity
    case Plain(_, _, _) =>
    case Multi(_, _, _, _, _, _, _) => MessagePartIs(nodes, id, p, n, t);
    case Enclosing(_, _, message) => MessagePartIs(nodes, id + 1, Place(message, p.whole), n, t);
  }

  lemma {:induction false} DescendIs(nodes: seq<Node>, id: Id, p: Place, path: seq<nat>, t: string)
    requires Linked(nodes) && At(nodes, id, p, t) && id < |nodes|
    ensures SamePart(nodes, Descend(nodes, id, path), PartsBelow(p, path), t)
    decreases |path|
  {
    hide At, PartBelow, SubPart;
    if path != [] {
      SubPartIs(nodes, id, p, path[0], t);
      var q := PartBelow(p, path[0]);
      if q.Some? { DescendIs(nodes, SubPart(nodes, id, path[0]).value, q.value, path[1..], t); }
    }
  }

  /** In a structure that matches the message, a path names the node of its entity, or both name nothing. */
  lemma ResolvedIs(nodes: seq<Node>, e: Entity, path: seq<nat>, t: string)
    requires Linked(nodes) && Matches(nodes, 0, e, t, true)
    ensures SamePart(nodes, Resolved(nodes, path), EntityAt(e, path), t)
  {
    var p := Place(e, true);
    assert At(nodes, 0, p, t);
    if path != [] {
      hide At, MessagePart, PartOf, Matches;
      MessagePartIs(nodes, 0, p, path[0], t);
      var q := PartOf(p, path[0]);
      if q.Some? { DescendIs(nodes, MessagePart(nodes, 0, path[0]).value, q.value, path[1..], t); }
    }
  }

  // --- sections ---------------------------------------------------------------------------------

  /** What a section of a composed message is, in terms of the entities it was composed of. */
  ghost function Expected(e: Entity, section: Section, filter: FieldFilter): (w: Option<string>) {
    match EntityAt(e, section.part)
    case None => None
    case Some(p) =>
      match section.text
      case Whole => Some(if section.part == [] then Compose(e) else BodyAt(p))
      case Mime => Some(Head(p.entity))
      case _ =>
        match Enclosed(section.part, p)
        case None => None
        case Some(m) =>
          match section.text
          case Header => Some(Head(m.entity))
          case Fields(names, except) => Some(filter(MimeLines.Text(m.entity.headers), names, except))
          case _ => Some(BodyAt(m))
  }

  /** The message a HEADER or TEXT is of: the whole one, or the one a part encloses. */
  function Enclosed(path: seq<nat>, p: Place): (m: Option<Place>) {
    if path == [] then Some(p)
    else if p.entity.Enclosing? then Some(Place(p.entity.message, p.whole))
    else None
  }

  lemma FoundOctets(n: Node, id: Id, p: Place, t: string)
    requires Found(n, id, p.entity, t, p.whole)
    ensures Slice(t, n.headerStart, n.bodyStart) == Head(p.entity)
    ensures Slice(t, n.bodyStart, n.bodyEnd) == BodyAt(p)
    ensures n.headers == MimeLines.Text(p.entity.headers)
  {
    hide Head, Body;
    assert t[n.bodyStart..n.bodyStart] == "" && t[n.headerStart..n.headerStart] == "";
  }

  lemma RootSectionIs(nodes: seq<Node>, e: Entity, section: Section, filter: FieldFilter, t: string)
    requires Linked(nodes) && Matches(nodes, 0, e, t, true) && t == Compose(e) && section.part == []
    ensures SectionOctets(t, nodes, section, filter) == Expected(e, section, filter)
  {
    hide Matches, Found, Head, Body, Compose, EntityAt, Resolved, Slice;
    assert Slice(t, 0, |t|) == t by { WholeSlice(t); }
    MatchesNode(nodes, 0, e, t, true);
    FoundOctets(nodes[0], 0, Place(e, true), t);
    RootAt(e);
    RootResolved(nodes);
  }

  lemma PartSectionIs(nodes: seq<Node>, e: Entity, section: Section, filter: FieldFilter, t: string)
    requires Linked(nodes) && Matches(nodes, 0, e, t, true) && section.part != []
    ensures SectionOctets(t, nodes, section, filter) == Expected(e, section, filter)
  {
    hide Matches, Found, Head, Body, Compose, EntityAt, Resolved, Slice;
    ResolvedIs(nodes, e, section.part, t);
    var p := EntityAt(e, section.part);
    if p.Some? {
      var id := Resolved(nodes, section.part).value;
      MatchesNode(nodes, id, p.value.entity, t, p.value.whole);
      FoundOctets(nodes[id], id, p.value, t);
      if p.value.entity.Enclosing? {
        MatchesNode(nodes, id + 1, p.value.entity.message, t, p.value.whole);
        FoundOctets(nodes[id + 1], id + 1, Place(p.value.entity.message, p.value.whole), t);
      }
    }
  }

  lemma SectionIs(nodes: seq<Node>, e: Entity, section: Section, filter: FieldFilter, t: string)
    requires Linked(nodes) && Matches(nodes, 0, e, t, true) && t == Compose(e)
    ensures SectionOctets(t, nodes, section, filter) == Expected(e, section, filter)
  {
    hide *;
    if section.part == [] {
      RootSectionIs(nodes, e, section, filter, t);
    } else {
      PartSectionIs(nodes, e, section, filter, t);
    }
  }

  lemma WholeSlice(t: string)
    ensures Slice(t, 0, |t|) == t
  {
  }

  lemma RootAt(e: Entity)
    ensures EntityAt(e, []) == Some(Place(e, true))
  {
  }

  lemma RootResolved(nodes: seq<Node>)
    requires Linked(nodes)
    ensures Resolved(nodes, []) == Some(0)
  {
  }

  /**
   For every composed message, path and section: BODY[path] is the body of the entity the path names, as its place
   leaves it, BODY[path.MIME] its head, HEADER and TEXT the head and body of the message it encloses, and a path
   past the parts of the message gives nothing.
  */
  lemma SectionOfComposed(e: Entity, read: HeaderReader, section: Section, filter: FieldFilter)
    requires Composable(e, {}, 0, false, read)
    requires Size(e) <= MAX_PARTS && HeaderBytes(e) <= MAX_MESSAGE_HEADER_BYTES
    ensures var t := Compose(e);
            Linked(Structure(t, read)) && SectionOctets(t, Structure(t, read), section, filter)
              == Expected(e, section, filter)
  {
    hide *;
    StructureLinked(Compose(e), read);
    ComposedIsFound(e, read);
    SectionIs(Structure(Compose(e), read), e, section, filter, Compose(e));
  }

  /** BINARY[path] is the decoded body of that entity, by the encoding its own header names if it is no container. */
  lemma BinaryOfComposed<S>(e: Entity, read: HeaderReader, path: seq<nat>, dec: Decoder<S>, encodingOf: EncodingReader)
    requires Composable(e, {}, 0, false, read) && path != []
    requires Size(e) <= MAX_PARTS && HeaderBytes(e) <= MAX_MESSAGE_HEADER_BYTES
    ensures BinaryOctets(Compose(e), path, read, dec, encodingOf) ==
            match EntityAt(e, path)
            case None => None
            case Some(p) =>
              var encoding := if p.entity.Plain? then encodingOf(MimeLines.Text(p.entity.headers)) else "7bit";
              Some(Decoded(dec, encoding, [BodyAt(p)]))
  {
    var t := Compose(e);
    var nodes := Structure(t, read);
    StructureLinked(t, read);
    ComposedIsFound(e, read);
    hide Matches, Found, Compose, EntityAt, Resolved, Slice, Structure, Decoded, Body;
    ResolvedIs(nodes, e, path, t);
    var p := EntityAt(e, path);
    if p.Some? {
      var id := Resolved(nodes, path).value;
      MatchesNode(nodes, id, p.value.entity, t, p.value.whole);
      FoundOctets(nodes[id], id, p.value, t);
    }
  }

  // --- ranges -----------------------------------------------------------------------------------

  /**
   Ranges fetched one after the other are the range they cover together, and one from the start long enough is
   all.
  */
  lemma PartialsJoin(w: string, offset: nat, a: nat, b: nat)
    ensures Cut(w, Some(Partial(offset, a))) + Cut(w, Some(Partial(offset + a, b)))
            == Cut(w, Some(Partial(offset, a + b)))
    ensures a >= |w| ==> Cut(w, Some(Partial(0, a))) == w == Cut(w, None)
    ensures |Cut(w, Some(Partial(offset, a)))| <= a
    ensures a > 0 && offset < |w| ==>
              |Cut(w, Some(Partial(offset, a)))| > 0 && Cut(w, Some(Partial(offset, a)))[0] == w[offset]
  {
  }
}
