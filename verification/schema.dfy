/** The document shapes of src/models/Post.ts: numeric nodes, comments and
    posts, the `Op` enumeration, and the schema defaults mongoose applies. */
module Schema {

  import opened Outcomes
  import opened JsValues

  /** Document ids are opaque; fresh ones come from a counter. */
  datatype ObjectId = ObjectId(n: nat)

  /** An abstract clock reading (milliseconds). */
  type Time = nat

  /** The four operators a numeric node may carry; the root carries none. */
  datatype Op = Add | Sub | Mul | Div

  function OpName(o: Op): string {
    match o
    case Add => "add"
    case Sub => "sub"
    case Mul => "mul"
    case Div => "div"
  }

  /** `["add", "sub", "mul", "div"].includes(op)`: only those four strings
      name an operator; every other body value (another string, a number,
      null, a missing field) names none. */
  function ParseOp(v: Value): (r: Option<Op>)
    ensures r.Some? <==> v in {Str("add"), Str("sub"), Str("mul"), Str("div")}
    ensures r.Some? ==> v == Str(OpName(r.value))
  {
    match v
    case Str(s) =>
      if s == "add" then Some(Add)
      else if s == "sub" then Some(Sub)
      else if s == "mul" then Some(Mul)
      else if s == "div" then Some(Div)
      else None
    case _ => None
  }

  /** Every operator's name parses back to it. */
  lemma OpNameRoundTrip(o: Op)
    ensures ParseOp(Str(OpName(o))) == Some(o)
  {
  }

  /** A node of a numeric chain. `parentId`, `op` and `rightOperand` are
      null (`None`) on the root; `result` and `authorId` are required. */
  datatype Node = Node(
    id: ObjectId,
    parentId: Option<ObjectId>,
    op: Option<Op>,
    rightOperand: Option<real>,
    result: real,
    authorId: string,
    authorName: Option<string>,
    createdAt: Time)

  /** A comment; `parentId` is a soft reference to another comment, kept as
      the client sent it, or null for a top-level comment. */
  datatype Comment = Comment(
    id: ObjectId,
    parentId: Option<Value>,
    text: string,
    authorId: string,
    authorName: Option<string>,
    createdAt: Time)

  /** A post as a handler sees it after loading, with the schema's
      `default: []` applied to both embedded arrays. `text` and
      `startNumber` are independent optional fields. */
  datatype Post = Post(
    id: ObjectId,
    authorId: string,
    authorName: Option<string>,
    text: Option<string>,
    startNumber: Option<real>,
    nodes: seq<Node>,
    comments: seq<Comment>,
    createdAt: Time)

  /** A post as stored: a document written before an array existed may
      lack it, which is what the listing's normalisation is for. */
  datatype Document = Document(
    id: ObjectId,
    authorId: string,
    authorName: Option<string>,
    text: Option<string>,
    startNumber: Option<real>,
    nodes: Option<seq<Node>>,
    comments: Option<seq<Comment>>,
    createdAt: Time)

  function OrEmpty<T>(a: Option<seq<T>>): seq<T> {
    match a
    case Some(xs) => xs
    case None => []
  }

  /** Loading a document: a missing `nodes` or `comments` array takes the
      schema default, every other field is kept. */
  function Hydrate(d: Document): (p: Post)
    ensures d.nodes.None? ==> p.nodes == []
    ensures d.comments.None? ==> p.comments == []
    ensures d.nodes.Some? ==> p.nodes == d.nodes.value
    ensures d.comments.Some? ==> p.comments == d.comments.value
    ensures p.id == d.id && p.authorId == d.authorId && p.authorName == d.authorName
    ensures p.text == d.text && p.startNumber == d.startNumber && p.createdAt == d.createdAt
  {
    Post(d.id, d.authorId, d.authorName, d.text, d.startNumber,
         OrEmpty(d.nodes), OrEmpty(d.comments), d.createdAt)
  }

  /** Saving a loaded post writes both arrays, holding the post's nodes and
      comments, and every other field as the post has it. */
  function Persist(p: Post): (d: Document)
    ensures d.nodes == Some(p.nodes) && d.comments == Some(p.comments)
    ensures d.id == p.id && d.authorId == p.authorId && d.authorName == p.authorName
    ensures d.text == p.text && d.startNumber == p.startNumber && d.createdAt == p.createdAt
  {
    Document(p.id, p.authorId, p.authorName, p.text, p.startNumber,
             Some(p.nodes), Some(p.comments), p.createdAt)
  }

  /** Saving and loading again gives the same post back. */
  lemma HydratePersist(p: Post)
    ensures Hydrate(Persist(p)) == p
  {
  }

  /** A document that carries both arrays is exactly the saved form of
      what loading it yields. */
  lemma PersistHydrate(d: Document)
    requires d.nodes.Some? && d.comments.Some?
    ensures Persist(Hydrate(d)) == d
  {
  }
}
