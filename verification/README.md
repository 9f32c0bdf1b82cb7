# Discussion-board post router, modelled in Dafny

This project models the post mutation rules of a small discussion-board
backend, together with the document shapes they rely on. The backend is an
Express router over a MongoDB collection of posts. A post is either free
text or a numeric chain seeded with a start number. Authenticated users
append comments, optionally threaded by a parent reference. They also append
numeric nodes: a node applies `add`, `sub`, `mul` or `div` with an operand
to an existing node's result.

Each handler reads a post, validates the request, appends to an embedded
array and writes the post back. The model lifts the middle of each handler
into a pure function over immutable values:

- `Outcomes` holds `Option`, the router's failure kinds (one per error
  message, each mapped to 400, 401 or 404) and `Result`.
- `JsValues` models request-body values and JavaScript truthiness.
- `JsText` models `String.prototype.trim` and the canonical decimal strings
  that name array elements.
- `Schema` models `Op`, `Node`, `Comment` and `Post`. It also models the
  stored `Document`, whose arrays may be missing, and the schema defaults
  applied when a document is loaded (`Hydrate`) and saved (`Persist`).
- `Auth` models the authentication gate. Token verification is a function
  parameter.
- `Chain` models the arithmetic rule and the chain invariant. From the
  invariant it proves that the nodes form a tree rooted at index 0, and that
  every result equals the start number replayed through the operations on
  its ancestry.
- `Posts` holds the pure handler middles and the post invariant they
  establish and keep.
- `Router` models the server state: a store map from id to document plus a
  fresh-id counter. It holds the listing, the three handlers with their
  exact error precedence, the dispatch with the authentication gate in
  front, and the proof that every request keeps the state invariant.
- `Scenarios` holds worked examples.

Numbers are exact `real`s and stand in for JavaScript doubles.

Behaviour of the code that a reader might not expect, modelled as written:

- Create does not enforce "text or number, but not both". With both a
  string `text` and a numeric `startNumber`, the post keeps both
  (`Posts.NewPostKeepsBoth`).
- Create does not enforce "at least one" either. A truthy `text` that is
  not a string passes validation but is not stored, so the post has neither
  text nor chain (`Posts.NewPostMayHoldNeither`).
- A `parentIndex` that names no node gives 400, but a missing post gives
  404. The model keeps this difference.
- A comment's `parentId` is never checked against existing comments.
- A node's parent is always an existing node.
- `parentIndex` is looked up as JavaScript does it. Both the number `1` and
  the string `"1"` name node 1; `1.5`, `-1` and `"01"` name no node.

## Model

| member | source | states |
|---|---|---|
| `Auth.BearerToken` | src/routes/Posts.ts:13 | A header matches `^Bearer (.+)$` exactly when it is the prefix followed by a non-empty token with no line terminator; the captured token is what follows the prefix |
| `Auth.BearerTokenRoundTrip` | src/routes/Posts.ts:13 | Every non-empty one-line token is recovered from the header built from it |
| `Auth.Authenticate` | src/routes/Posts.ts:10-21 | An absent or empty header gives "missing", a malformed header gives "invalid format", and a token the verifier rejects gives "invalid token", in that order; all are 401; it succeeds exactly when the verifier accepts the captured token, and yields the verifier's claims |
| `Router.Dispatch` | src/routes/Posts.ts:10-21 | A failed authentication replies 401 with the state unchanged and no handler run; otherwise the routed handler's outcome is the reply; every error leaves the state unchanged |
| `Outcomes.StatusOf` | src/routes/Posts.ts:11-117 | The three authentication failures are answered 401, a missing post 404, and every other failure 400, an unknown parent node included (not 404) |
| `Outcomes.Code` | src/routes/Posts.ts:11-117 | The numbers passed to `res.status`: 400, 401 and 404 each stand for exactly one status class |
| `JsText.Trim` | src/routes/Posts.ts:81 | The result is no longer than the input and starts and ends with neither ECMAScript whitespace nor a line terminator |
| `JsText.TrimIsInfix` | src/routes/Posts.ts:81 | The result is an infix of the input, and everything cut away on either side is whitespace or line terminators |
| `JsText.TrimEmptyIffBlank` | src/routes/Posts.ts:74 | Trimming gives the empty string exactly when every character is whitespace or a line terminator |
| `JsText.TrimOfPadded` | src/routes/Posts.ts:81 | Padding a string that has non-strippable ends with strippable characters, then trimming, gives the string back |
| `JsText.TrimFixesTrimmed` | src/routes/Posts.ts:81 | Trim leaves a string unchanged exactly when neither of its ends is strippable |
| `JsText.TrimIdempotent` | src/routes/Posts.ts:81 | Trimming twice equals trimming once |
| `JsText.ParseIndexRoundTrip` | src/routes/Posts.ts:107 | A string names index n exactly when it is n's canonical decimal form |
| `Schema.ParseOp` | src/routes/Posts.ts:101 | Exactly the strings "add", "sub", "mul" and "div" name an operator, and each names the operator whose name it is |
| `Schema.OpNameRoundTrip` | src/models/Post.ts:4 | Every operator's name parses back to that operator |
| `Schema.Hydrate` | src/models/Post.ts:59-60 | Loading a document defaults a missing `nodes` or `comments` array to empty, and keeps a present array and every other field |
| `Schema.Persist` | src/routes/Posts.ts:87-89 | Saving a post (on create, after a comment, after a node) writes both arrays, holding exactly the post's nodes and comments, and keeps every other field |
| `Schema.HydratePersist` | src/models/Post.ts:54-62 | Saving a post and loading it again gives the same post |
| `Schema.PersistHydrate` | src/models/Post.ts:54-62 | A document with both arrays present is the saved form of the post it loads as |
| `Chain.ParentIndex` | src/routes/Posts.ts:107-122 | In a valid chain, every non-root node extends exactly one node, and that node has a smaller index |
| `Chain.RootIsUnique` | src/routes/Posts.ts:51-56 | In a valid chain, a node is a root (no parent, op or operand) exactly when it is at index 0 |
| `Chain.Ancestry` | src/routes/Posts.ts:107-129 | From every node, parent links lead through strictly decreasing indices to index 0, so the chain is a tree rooted at index 0 |
| `Chain.Apply` | src/routes/Posts.ts:110-119 | The new result is the parent's result combined with the operand: the inverse operation recovers the parent's result (minus the operand after `add`, plus it after `sub`, divided by a non-zero operand after `mul`, times it after `div`), and `mul` by zero gives zero; a zero divisor is outside its domain |
| `Chain.History` | src/routes/Posts.ts:110-125 | Every node has a list of steps, one per link of its ancestry and none dividing by zero, whose replay from the root's value gives the node's result |
| `Chain.HistoryFollowsAncestry` | src/routes/Posts.ts:110-125 | Those steps are the operators and operands of the nodes on the ancestry, taken from just below the root down to the node itself, in that order |
| `Chain.AppendKeepsChain` | src/routes/Posts.ts:121-129 | Appending a node with a fresh id that references an existing node, carries an operator and a non-zero divisor, and holds the computed result keeps the chain invariant |
| `Chain.ResolveIndex` | src/routes/Posts.ts:107-108 | A resolved `parentIndex` is in range, and it was either that index as a number or its decimal string |
| `Chain.ResolveEveryIndex` | src/routes/Posts.ts:107 | Every existing node is named by its index as a number and by its index's decimal string |
| `Chain.ResolveInEmpty` | src/models/Post.ts:59 | In an empty node sequence no `parentIndex` names a node |
| `JsValues.TruthyAgreesWithFalsyTable` | src/routes/Posts.ts:38 | `Truthy`, the JavaScript truthiness behind `!text` and `parentId ? parentId : null`, is false exactly for `undefined`, `null`, `false`, `0` and the empty string |
| `Posts.NewPost` | src/routes/Posts.ts:37-64 | Rejected (400) exactly when `text` is falsy and `startNumber` is not a number. A string `text` is stored. A number is stored and seeds exactly one root node holding it, authored by the caller; otherwise there are no nodes and no start number. Comments start empty, and the post satisfies the post invariant |
| `Posts.NewPostKeepsBoth` | src/routes/Posts.ts:48-50 | A post created with both a string text and a number keeps both |
| `Posts.NewPostMayHoldNeither` | src/routes/Posts.ts:38-48 | A truthy non-string text without a number is accepted, and the post has neither text nor start number |
| `Posts.NewComment` | src/routes/Posts.ts:73-85 | Rejected (400) exactly when the text is not a string or is blank. Otherwise the stored text is the trimmed input (non-empty, already trimmed), and the parent is the given value when it is truthy and null otherwise |
| `Posts.WithComment` | src/routes/Posts.ts:88 | Pushing a comment grows the comment list by exactly that comment at the end and changes nothing else about the post |
| `Posts.WithCommentKeepsValid` | src/routes/Posts.ts:79-88 | Appending a validated comment under a fresh id keeps the post invariant. It adds exactly one comment at the end and leaves earlier comments, nodes, text and start number unchanged |
| `Posts.ParseStep` | src/routes/Posts.ts:100-102 | An invalid `op` fails before a non-numeric operand. It succeeds exactly when both are valid, and the step carries the named operator and the number |
| `Posts.AppendNode` | src/routes/Posts.ts:107-129 | A `parentIndex` naming no node fails (400) before a zero divisor is checked, and `div` by zero fails. Otherwise exactly one node is appended at the end and all earlier nodes and other fields are unchanged. The new node references the parent's id, carries the op and operand, and holds parent result + / - / * / ÷ operand |
| `Posts.AppendNodeKeepsValid` | src/routes/Posts.ts:107-129 | Appending a node under a fresh id keeps the post invariant, including the chain invariant |
| `Posts.TextPostCannotExtend` | src/models/Post.ts:59 | A post with the default empty node list can never be extended; every attempt fails at the parent lookup |
| `Router.Initial` | src/models/Post.ts:54-64 | The empty store satisfies the state invariant |
| `Router.Normalize` | src/routes/Posts.ts:28-31 | A missing `comments` becomes empty, a present one is kept, and every other field is unchanged |
| `Router.NormalizeIdempotent` | src/routes/Posts.ts:28-31 | Normalising twice equals normalising once |
| `Router.NormalizeAgreesWithLoad` | src/models/Post.ts:60 | A normalised document loads as the same post as the original one |
| `Router.ListPosts` | src/routes/Posts.ts:25-33 | Lists every post in the database's order, each normalised. Every listed post has a comments array, and the list stays newest first |
| `Router.CreatePost` | src/routes/Posts.ts:36-68 | Fails exactly when the body is invalid. Otherwise the new post is added under an id not already in a valid store, and no other entry changes |
| `Router.AddComment` | src/routes/Posts.ts:71-92 | Blank or non-string text gives 400 before the post lookup, and a missing post gives 404. Otherwise the loaded post gets exactly one comment appended under the next fresh id, holding the trimmed text, the given `parentId` when it is truthy and null otherwise, the caller as author and the request time; earlier comments are unchanged and only that post's entry is rewritten |
| `Router.ExtendChain` | src/routes/Posts.ts:98-133 | The failures come in this order: invalid op, non-numeric operand, missing post (404), unknown parent node (400), division by zero. Otherwise exactly one node is appended under the next fresh id, with parent id, op, operand, computed result, the caller as author and the request time; earlier nodes are unchanged, only that post's entry is rewritten and the id counter advances by one |
| `Router.StoreKeepsValid` | src/routes/Posts.ts:87-89 | Writing a valid post back under its id, with the id counter advanced past its ids, keeps the state invariant |
| `Router.CommentWriteKeepsValid` | src/routes/Posts.ts:79-89 | Writing back a loaded post with one well-formed comment appended under the next fresh id keeps the state invariant |
| `Router.NodeWriteKeepsValid` | src/routes/Posts.ts:121-131 | Writing back a loaded post with one node appended under the next fresh id keeps the state invariant |
| `Router.CreatePostKeepsValid` | src/routes/Posts.ts:66 | Create keeps the state invariant |
| `Router.AddCommentKeepsValid` | src/routes/Posts.ts:87-89 | Add comment keeps the state invariant |
| `Router.ExtendChainKeepsValid` | src/routes/Posts.ts:121-131 | Extend chain keeps the state invariant |
| `Router.DispatchKeepsValid` | src/routes/Posts.ts:36-133 | Every request, with any credentials, keeps the state invariant: chains stay correctly computed trees, comments stay trimmed and non-blank, ids stay fresh |
| `Scenarios.SubtractThenDivideByZero` | src/routes/Posts.ts:98-133 | Seeding 100 and then applying sub 30 to the root gives 70 with the root as parent; then dividing that node by 0 is refused |
| `Scenarios.TrimsPadding` | src/routes/Posts.ts:81 | "  hi  " trims to "hi" |
| `Scenarios.MultiplyExample` | src/routes/Posts.ts:115 | Extending a node that holds 10 with mul 3 gives 30 |

## Left out

- Express routing, middleware chaining, response serialisation and all of
  `src/index.ts` (app setup, CORS, configuration, the database connection,
  the health route, `listen`): bootstrap and I/O.
- Mongoose persistence (`find`, `findById`, `save`, `create`, `lean`). The
  store is a map from id to document. The descending-`createdAt` sort is a
  database promise, given as the `order` argument of `Router.ListPosts`. The
  sort's order among posts with equal timestamps is not modelled.
- `jwt.verify` and the secret fallback: a foreign crypto library. It is the
  `verify` parameter, which maps a token to claims or to rejection.
- IEEE-754 doubles: exact real arithmetic instead. Rounding, NaN, the
  infinities and `-0` are not modelled. A NaN or infinite `startNumber`
  passes the `typeof` check in the source, and no such value exists here.
- Concurrency: two requests interleaving their read-modify-write on one post
  can lose an appended item. The model is sequential.
- Real timestamps and ObjectIds. Ids come from a counter, and time is an
  abstract `now` argument per request. Create reads the clock twice (post
  and root node), and the model uses one reading for both. Create always
  consumes two ids.
- Mongoose cast and validation failures. These become unhandled errors in
  the source, not 400/401/404 replies:
  - a truthy comment `parentId` that is not an ObjectId;
  - claims without an `id`;
  - claims whose `id` is the empty string: Mongoose's `required` check on a
    string path rejects `""`, so the create or save throws, while the model's
    handlers succeed;
  - a `postId` that is not an ObjectId.
  Claims always carry an `id` here, and `postId` is an `ObjectId`.
- `parentIndex` given as an array or object, which JavaScript would convert
  to a string key, and `parentIndex` naming a property of the array other
  than an element (`"length"`, a method name). Both are treated as naming no
  node, so the model answers 400. When such a property is truthy (`"length"`
  of a non-empty list, any method), the source goes on with an undefined
  parent result, computes NaN, and the save fails without a reply.
- Schema defaults for node fields (`parentId`, `op`, `rightOperand`) and
  for comment `parentId`: the handlers always set these fields explicitly,
  so the defaults never apply. Required fields are non-optional fields of
  the datatypes; that a required string must also be non-empty is not
  modelled (see the validation failures above). The `Op` enum's `null` is `Option.None`.
- Error message strings are listed by `Failure.Message` without a contract.
- Listing twice without a mutation in between gives the same result because
  `Router.ListPosts` is a function of the state; there is no separate
  lemma for it.
