/** The headers of a SEND request as the Go and the Java client fill them, and what the broker reads from them. */
module SendHeaders {
  import opened Text

  /** What a sender asks for. Priority is the text on the wire. */
  datatype Wish = Wish(
    priority: string,
    key: Option<string>,
    delay: Option<int>,
    ttl: Option<int>,
    tags: seq<string>)

  const NORMAL := "normal"

  /** Go has no missing values: "" and 0 stand for them. */
  datatype GoOptions = GoOptions(priority: string, key: string, delay: int, ttl: int, tags: seq<string>)

  datatype JavaOptions = JavaOptions(
    priority: Option<string>,
    key: Option<string>,
    delay: Option<int>,
    ttl: Option<int>,
    tags: seq<string>)

  type Headers = map<string, string>

  // ---------------------------------------------------------------- writing

  const PRIORITY := "mq9-priority"
  const KEY := "mq9-key"
  const DELAY := "mq9-delay"
  const TTL := "mq9-ttl"
  const TAGS := "mq9-tags"

  /** The value of a header, None when it is missing. */
  function Field(h: Headers, name: string): Option<string> {
    if name in h then Some(h[name]) else None
  }

  function IfPresent(present: bool, value: string): Option<string> {
    if present then Some(value) else None
  }

  function NumberText(n: Option<int>): Option<string> {
    match n
    case Some(v) => Some(SignedDecimal(v))
    case None => None
  }

  function TagsText(tags: seq<string>): Option<string> {
    if tags == [] then None else Some(Join(tags, ','))
  }

  ghost predicate Carries(h: Headers, priority: Option<string>, key: Option<string>, delay: Option<string>,
                          ttl: Option<string>, tags: Option<string>)
  {
    && h.Keys <= {PRIORITY, KEY, DELAY, TTL, TAGS}
    && Field(h, PRIORITY) == priority
    && Field(h, KEY) == key
    && Field(h, DELAY) == delay
    && Field(h, TTL) == ttl
    && Field(h, TAGS) == tags
  }

  ghost predicate GoWrites(o: GoOptions, h: Headers) {
    Carries(h,
      IfPresent(o.priority != "" && o.priority != NORMAL, o.priority),
      IfPresent(o.key != "", o.key),
      IfPresent(o.delay > 0, SignedDecimal(o.delay)),
      IfPresent(o.ttl > 0, SignedDecimal(o.ttl)),
      TagsText(o.tags))
  }

  ghost predicate JavaWrites(o: JavaOptions, h: Headers) {
    Carries(h, o.priority, o.key, NumberText(o.delay), NumberText(o.ttl), TagsText(o.tags))
  }

  /** Go sets a header only when its option differs from the default. */
  method GoHeaders(o: GoOptions) returns (h: Headers)
    ensures GoWrites(o, h)
    ensures h.Keys <= {"mq9-priority", "mq9-key", "mq9-delay", "mq9-ttl", "mq9-tags"}
    ensures Field(h, "mq9-priority") == if o.priority in {"", "normal"} then None else Some(o.priority)
    ensures Field(h, "mq9-key") == if o.key == "" then None else Some(o.key)
    ensures Field(h, "mq9-delay") == if o.delay > 0 then Some(SignedDecimal(o.delay)) else None
    ensures Field(h, "mq9-ttl") == if o.ttl > 0 then Some(SignedDecimal(o.ttl)) else None
    ensures Field(h, "mq9-tags") == if |o.tags| > 0 then Some(Join(o.tags, ',')) else None
  {
    NamesDiffer();
    hide SignedDecimal;
    hide Join;
    h := map[];
    var priority := o.priority;
    if priority == "" {
      priority := NORMAL;
    }
    if priority != NORMAL {
      h := h[PRIORITY := priority];
    }
    if o.key != "" {
      h := h[KEY := o.key];
    }
    if o.delay > 0 {
      h := h[DELAY := SignedDecimal(o.delay)];
    }
    if o.ttl > 0 {
      h := h[TTL := SignedDecimal(o.ttl)];
    }
    if |o.tags| > 0 {
      h := h[TAGS := Join(o.tags, ',')];
    }
  }

  /** Java adds a header for every option that is not null, the normal priority among them. */
  method JavaHeaders(o: JavaOptions) returns (h: Headers)
    ensures JavaWrites(o, h)
    ensures h.Keys <= {"mq9-priority", "mq9-key", "mq9-delay", "mq9-ttl", "mq9-tags"}
    ensures Field(h, "mq9-priority") == o.priority && Field(h, "mq9-key") == o.key
    ensures Field(h, "mq9-delay") == if o.delay.Some? then Some(SignedDecimal(o.delay.value)) else None
    ensures Field(h, "mq9-ttl") == if o.ttl.Some? then Some(SignedDecimal(o.ttl.value)) else None
    ensures Field(h, "mq9-tags") == if |o.tags| > 0 then Some(Join(o.tags, ',')) else None
  {
    NamesDiffer();
    hide SignedDecimal;
    hide Join;
    h := map[];
    if o.priority.Some? {
      h := h[PRIORITY := o.priority.value];
    }
    if o.key.Some? {
      h := h[KEY := o.key.value];
    }
    if o.delay.Some? {
      h := h[DELAY := SignedDecimal(o.delay.value)];
    }
    if o.ttl.Some? {
      h := h[TTL := SignedDecimal(o.ttl.value)];
    }
    if o.tags != [] {
      h := h[TAGS := Join(o.tags, ',')];
    }
  }

  lemma NamesDiffer()
    ensures PRIORITY != KEY && PRIORITY != DELAY && PRIORITY != TTL && PRIORITY != TAGS
    ensures KEY != DELAY && KEY != TTL && KEY != TAGS
    ensures DELAY != TTL && DELAY != TAGS && TTL != TAGS
  {
  }

  // ---------------------------------------------------------------- reading

  function NumberOf(text: Option<string>): Option<int> {
    match text
    case Some(t) => ParseSigned(t)
    case None => None
  }

  /** What the headers say, with the defaults of the protocol. */
  function Decode(h: Headers): Wish {
    Wish(
      if PRIORITY in h then h[PRIORITY] else NORMAL,
      Field(h, KEY),
      NumberOf(Field(h, DELAY)),
      NumberOf(Field(h, TTL)),
      if TAGS in h then Split(h[TAGS], ',') else [])
  }

  /** What Go's options mean: "" and numbers that are not positive mean that nothing was asked. */
  function GoMeaning(o: GoOptions): Wish {
    Wish(
      if o.priority == "" then NORMAL else o.priority,
      if o.key == "" then None else Some(o.key),
      if o.delay > 0 then Some(o.delay) else None,
      if o.ttl > 0 then Some(o.ttl) else None,
      o.tags)
  }

  function JavaMeaning(o: JavaOptions): Wish {
    Wish(if o.priority.Some? then o.priority.value else NORMAL, o.key, o.delay, o.ttl, o.tags)
  }

  lemma TagsRead(tags: seq<string>, h: Headers)
    requires Field(h, TAGS) == TagsText(tags)
    ensures Decode(h).tags == tags <==> Free(tags, ',')
  {
    if tags != [] {
      SplitJoin(tags, ',');
    }
  }

  lemma NumberRead(n: Option<int>)
    ensures NumberOf(NumberText(n)) == n
  {
    if n.Some? {
      SignedDecimalParses(n.value);
    }
  }

  /** Go's headers say what its options mean exactly when no tag holds a comma. */
  lemma GoReadsBack(o: GoOptions, h: Headers)
    requires GoWrites(o, h)
    ensures Decode(h) == GoMeaning(o) <==> Free(o.tags, ',')
  {
    NamesDiffer();
    hide Split;
    hide Join;
    hide ParseSigned;
    hide SignedDecimal;
    hide Free;
    TagsRead(o.tags, h);
    NumberRead(Some(o.delay));
    NumberRead(Some(o.ttl));
  }

  /** Java's headers say what its options mean exactly when no tag holds a comma. */
  lemma JavaReadsBack(o: JavaOptions, h: Headers)
    requires JavaWrites(o, h)
    ensures Decode(h) == JavaMeaning(o) <==> Free(o.tags, ',')
  {
    NamesDiffer();
    hide Split;
    hide Join;
    hide ParseSigned;
    hide SignedDecimal;
    hide Free;
    TagsRead(o.tags, h);
    NumberRead(o.delay);
    NumberRead(o.ttl);
  }

  // ---------------------------------------------------------------- one wish, two clients

  function AsGo(w: Wish): GoOptions {
    GoOptions(
      w.priority,
      if w.key.Some? then w.key.value else "",
      if w.delay.Some? then w.delay.value else 0,
      if w.ttl.Some? then w.ttl.value else 0,
      w.tags)
  }

  function AsJava(w: Wish): JavaOptions {
    JavaOptions(Some(w.priority), w.key, w.delay, w.ttl, w.tags)
  }

  /** Go can express the wish: nothing in it looks like a missing value. */
  predicate Expressible(w: Wish) {
    && w.priority != ""
    && w.key != Some("")
    && (w.delay.Some? ==> w.delay.value > 0)
    && (w.ttl.Some? ==> w.ttl.value > 0)
  }

  /** Through the Java client a wish arrives as it was exactly when no tag holds a comma; through the Go client exactly
      when, besides, Go's options can express it. Then the two clients' headers differ in nothing but the normal
      priority, which Java sends and Go leaves out. */
  lemma WishArrives(w: Wish, go: Headers, java: Headers)
    requires GoWrites(AsGo(w), go) && JavaWrites(AsJava(w), java)
    ensures Decode(java) == w <==> Free(w.tags, ',')
    ensures Decode(go) == w <==> Free(w.tags, ',') && Expressible(w)
    ensures Expressible(w) ==> go == if w.priority == NORMAL then java - {PRIORITY} else java
  {
    GoReadsBack(AsGo(w), go);
    JavaReadsBack(AsJava(w), java);
    GoExpresses(w, go);
    SameFields(w, go, java);
  }

  lemma GoExpresses(w: Wish, go: Headers)
    requires GoWrites(AsGo(w), go)
    ensures GoMeaning(AsGo(w)) == w <==> Expressible(w)
    ensures Decode(go) == w ==> Expressible(w)
  {
  }

  lemma SameFields(w: Wish, go: Headers, java: Headers)
    requires GoWrites(AsGo(w), go) && JavaWrites(AsJava(w), java)
    ensures Expressible(w) ==> go == if w.priority == NORMAL then java - {PRIORITY} else java
  {
  }
}
