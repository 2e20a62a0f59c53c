/** How each search hit is shown: its shape is decided by its key's prefix
    alone, tested in the order `Tweet:`, `Spaces:`, `discord_message:`, and
    the shape picks a title and the one field shown as content, with a
    placeholder when that field is absent. */
module ResultDisplay {
  import opened Schema

  /** The kind of record a key names. */
  datatype Shape = Tweet | Space | DiscordMessage | Unknown

  /** A hit as the search returns it: its key and the fields it carries. */
  datatype Doc = Doc(id: string, fields: map<string, string>)

  /** What is shown for one hit. */
  datatype Display = Display(title: string, content: string)

  /** One hit's rendering: key, title, content. */
  datatype Row = Row(id: string, title: string, content: string)

  /** The shape a key names. Each shape holds exactly when its prefix
      starts the key, and Unknown exactly when none does: since no key starts
      with two of the prefixes, the order they are tested in does not matter. */
  function ShapeOf(key: string): (s: Shape)
    ensures s == Tweet <==> TWEET_PREFIX <= key
    ensures s == Space <==> SPACES_PREFIX <= key
    ensures s == DiscordMessage <==> DISCORD_PREFIX <= key
    ensures s == Unknown <==> !(TWEET_PREFIX <= key || SPACES_PREFIX <= key || DISCORD_PREFIX <= key)
  {
    PrefixesExclusive(key);
    if TWEET_PREFIX <= key then Tweet
    else if SPACES_PREFIX <= key then Space
    else if DISCORD_PREFIX <= key then DiscordMessage
    else Unknown
  }

  function Title(s: Shape): string
  {
    match s
    case Tweet => "Tweet"
    case Space => "Space"
    case DiscordMessage => "Discord Message"
    case Unknown => "Unknown"
  }

  /** The field a shape shows, when it shows one. */
  function ShownField(s: Shape): string
    requires s != Unknown
  {
    if s == Space then "title" else "content"
  }

  /** The text shown when the shape's field is absent. */
  function Placeholder(s: Shape): string
  {
    match s
    case Tweet => "No content"
    case Space => "No title"
    case DiscordMessage => "No content"
    case Unknown => "Unknown content"
  }

  /** The title and content shown for a hit with this key and these fields. */
  function Present(key: string, fields: map<string, string>): (d: Display)
    ensures d.title == Title(ShapeOf(key))
    ensures ShapeOf(key) == Unknown ==> d.content == "Unknown content"
    ensures ShapeOf(key) != Unknown ==>
      d.content == if ShownField(ShapeOf(key)) in fields then fields[ShownField(ShapeOf(key))]
                   else Placeholder(ShapeOf(key))
  {
    var shape := ShapeOf(key);
    match shape
    case Tweet => Display("Tweet", if "content" in fields then fields["content"] else "No content")
    case Space => Display("Space", if "title" in fields then fields["title"] else "No title")
    case DiscordMessage =>
      Display("Discord Message", if "content" in fields then fields["content"] else "No content")
    case Unknown => Display("Unknown", "Unknown content")
  }

  /** Renders every hit, in the order the search returned them. */
  method PresentAll(docs: seq<Doc>) returns (rows: seq<Row>)
    ensures |rows| == |docs|
    ensures forall i :: 0 <= i < |docs| ==>
      rows[i].id == docs[i].id &&
      rows[i].title == Title(ShapeOf(docs[i].id)) &&
      Display(rows[i].title, rows[i].content) == Present(docs[i].id, docs[i].fields)
  {
    rows := [];
    for i := 0 to |docs|
      invariant |rows| == i
      invariant forall j :: 0 <= j < i ==>
        rows[j].id == docs[j].id &&
        Display(rows[j].title, rows[j].content) == Present(docs[j].id, docs[j].fields)
    {
      var d := Present(docs[i].id, docs[i].fields);
      rows := rows + [Row(docs[i].id, d.title, d.content)];
    }
  }

  // ---------------------------------------------------------------------
  // Properties of the classification.

  /** No key starts with two of the three shape prefixes, so the order in
      which they are tested does not matter. */
  lemma PrefixesExclusive(key: string)
    ensures !(TWEET_PREFIX <= key && SPACES_PREFIX <= key)
    ensures !(TWEET_PREFIX <= key && DISCORD_PREFIX <= key)
    ensures !(SPACES_PREFIX <= key && DISCORD_PREFIX <= key)
  {
    if TWEET_PREFIX <= key { assert key[0] == 'T'; }
    if SPACES_PREFIX <= key { assert key[0] == 'S'; }
  }

  /** The key a record of a given shape is stored under. */
  function KeyFor(s: Shape, id: string): (key: string)
    requires s != Unknown
  {
    match s
    case Tweet => TWEET_PREFIX + id
    case Space => SPACES_PREFIX + id
    case DiscordMessage => DISCORD_PREFIX + id
  }

  /** Classifying a record's key gives back the shape it was stored as,
      whatever its identifier. */
  lemma ShapeOfKeyFor(s: Shape, id: string)
    requires s != Unknown
    ensures ShapeOf(KeyFor(s, id)) == s
  {
    var key := KeyFor(s, id);
    PrefixesExclusive(key);
    match s
    case Tweet => assert TWEET_PREFIX <= key;
    case Space => assert SPACES_PREFIX <= key;
    case DiscordMessage => assert DISCORD_PREFIX <= key;
  }

  /** The title shown names the shape: different shapes, different titles. */
  lemma TitleIdentifiesShape(s: Shape, t: Shape)
    requires Title(s) == Title(t)
    ensures s == t
  {
  }

  /** A Space hit shows its `title` field (or "No title") and never its
      `content`: hits that differ only outside `title` look the same. */
  lemma SpaceIgnoresContent(key: string, f: map<string, string>, g: map<string, string>)
    requires ShapeOf(key) == Space
    requires ("title" in f <==> "title" in g)
    requires "title" in f ==> f["title"] == g["title"]
    ensures Present(key, f) == Present(key, g)
    ensures Present(key, f).title == "Space"
    ensures Present(key, f).content == if "title" in f then f["title"] else "No title"
  {
  }

  /** Tweets and Discord messages show their `content` field, or
      "No content" when the hit carries none. */
  lemma MessagesShowContent(key: string, f: map<string, string>)
    requires ShapeOf(key) == Tweet || ShapeOf(key) == DiscordMessage
    ensures Present(key, f).content == if "content" in f then f["content"] else "No content"
    ensures Present(key, f).title == if TWEET_PREFIX <= key then "Tweet" else "Discord Message"
  {
  }

  /** A key with none of the three prefixes shows the fixed placeholders,
      whatever fields it carries. */
  lemma UnknownIsPlaceholder(key: string, f: map<string, string>)
    requires !(TWEET_PREFIX <= key || SPACES_PREFIX <= key || DISCORD_PREFIX <= key)
    ensures Present(key, f) == Display("Unknown", "Unknown content")
  {
  }
}
