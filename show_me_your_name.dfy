/** The label composer of the ShowMeYourName plugin: given the user being
    rendered, the member's nickname, the plugin settings and two render flags,
    it builds the ordered children of the username element of a chat message.

    `ComposeLabel` follows the body of the `try` block statement by statement;
    `RenderUsername` adds the `catch` fallback. `Layout` and `Fill` are an
    independent, table-shaped description of the same output, which the
    lemmas in module LabelProperties connect to the statement-by-statement
    version. */
module ShowMeYourName {
  import opened Wrappers

  // ---------------------------------------------------------------------
  // Inputs
  // ---------------------------------------------------------------------

  /** The fields of a user record the composer reads. */
  datatype User = User(username: Option<string>, globalName: Option<string>, id: string)

  /** The `author` prop: the member record that carries the nickname. */
  datatype Author = Author(nick: Option<string>)

  /** The props of one call. A message whose author is unknown is given as
      `messageAuthor == None`. `withMentionPrefix` is optional in the source;
      a missing value is falsy in `withMentionPrefix ? "@" : ""`, so it is
      given here as `false`. */
  datatype Props = Props(
    author: Option<Author>,
    messageAuthor: Option<User>,
    isRepliedMessage: bool,
    withMentionPrefix: bool,
    userOverride: Option<User>)

  /** A snapshot of the plugin settings, read once per call. */
  datatype Settings = Settings(mode: string, displayNames: bool, inReplies: bool)

  /** The values offered by the `mode` select setting. Any other string is
      possible in the store and reaches the default arm. */
  const Modes: seq<string> := [
    "user-nick-id", "nick-user-id", "id-user-nick", "id-nick-user", "user-id-nick",
    "nick-id-user", "user-id", "user-nick", "nick-user", "id-user", "user"]

  /** The modes whose label shows the nickname. */
  const NickModes: set<string> := {
    "user-nick-id", "nick-user-id", "id-user-nick", "id-nick-user", "user-id-nick",
    "nick-id-user", "user-nick", "nick-user"}

  // ---------------------------------------------------------------------
  // Output
  // ---------------------------------------------------------------------

  /** One child of the rendered fragment: unstyled text, a `vc-smyn-suffix`
      span around another child, or the `vc-smyn-id` span holding the id. */
  datatype Segment = Plain(text: string) | Suffix(inner: Segment) | Id(text: string) {

    /** The text the child displays, looking through a suffix span. */
    function Shown(): string {
      match this
      case Plain(t) => t
      case Suffix(s) => s.Shown()
      case Id(t) => t
    }

    /** Whether the child is, or wraps, the id span. */
    predicate ShowsId() {
      match this
      case Plain(_) => false
      case Suffix(s) => s.ShowsId()
      case Id(_) => true
    }
  }

  /** What the `try` block does: returns a fragment or throws. */
  datatype Outcome = Rendered(segments: seq<Segment>) | Threw(fault: Fault)

  /** The TypeErrors the `try` block can raise: reading fields of a missing
      user (ShowMeYourName/index.tsx line 72), of a missing author (line 76),
      or calling `toLowerCase` on a missing username or nickname (line 81). */
  datatype Fault = NoUser | NoAuthor | NoNameToCompare

  // ---------------------------------------------------------------------
  // The composer, as written
  // ---------------------------------------------------------------------

  /** `userOverride ?? message.author`. */
  function ResolvedUser(p: Props): Option<User> {
    if p.userOverride.Some? then p.userOverride else p.messageAuthor
  }

  /** The name shown in the username role: the global (display) name when
      display names are on and it is a non-empty string, else the username.
      The nickname never takes this role. */
  function EffectiveUsername(user: User, displayNames: bool): Option<string> {
    if displayNames && user.globalName.Some? && user.globalName.value != "" then user.globalName
    else user.username
  }

  function LowerChar(c: char): char {
    if 'A' <= c <= 'Z' then (c as int - 'A' as int + 'a' as int) as char else c
  }

  /** JavaScript `toLowerCase`, for the ASCII letters. */
  function ToLower(s: string): (r: string)
    ensures |r| == |s|
    ensures forall i :: 0 <= i < |s| ==> r[i] == LowerChar(s[i])
  {
    if s == [] then [] else [LowerChar(s[0])] + ToLower(s[1..])
  }

  /** How JSX renders a possibly missing string child: `undefined` shows
      nothing, the same as the empty string. */
  function Text(o: Option<string>): string {
    o.GetOr("")
  }

  /** The `try` block of `renderUsername`, branch for branch. */
  function ComposeLabel(p: Props, s: Settings): Outcome {
    var user := ResolvedUser(p);
    if user.None? then Threw(NoUser)
    else
      var username := EffectiveUsername(user.value, s.displayNames);
      if p.author.None? then Threw(NoAuthor)
      else
        var nick := p.author.value.nick;
        var prefix := if p.withMentionPrefix then [Plain("@")] else [];
        var userIdDisplay := Id(user.value.id);
        var u := Plain(Text(username));
        var n := Plain(Text(nick));
        // `a && b || c` is `(a && b) || c`; `c` runs only when `a && b` is false
        var skipCompare := p.isRepliedMessage && !s.inReplies;
        if !skipCompare && (username.None? || nick.None?) then Threw(NoNameToCompare)
        // the brace-less `if` guards only the nested `if (mode === "user-id")`
        else if (skipCompare || ToLower(username.value) == ToLower(nick.value)) && s.mode == "user-id" then
          Rendered(prefix + [u, userIdDisplay])
        else Rendered(ModeChain(s.mode, prefix, u, n, userIdDisplay))
  }

  /** The chain of mode checks after the collapse test: the first mode that
      matches returns its fixed order, and anything else gets the default. */
  function ModeChain(mode: string, prefix: seq<Segment>, u: Segment, n: Segment, userIdDisplay: Segment): seq<Segment> {
    if mode == "nick-user-id" then prefix + [n, Suffix(u), userIdDisplay]
    else if mode == "id-user-nick" then prefix + [userIdDisplay, u, Suffix(n)]
    else if mode == "id-nick-user" then prefix + [userIdDisplay, n, Suffix(u)]
    else if mode == "user-id-nick" then prefix + [u, userIdDisplay, Suffix(n)]
    else if mode == "nick-id-user" then prefix + [n, Suffix(userIdDisplay), u]
    else if mode == "id-user" then prefix + [userIdDisplay, u]
    else if mode == "user-nick" then prefix + [u, Suffix(n), userIdDisplay]
    else if mode == "nick-user" then prefix + [n, Suffix(u)]
    else if mode == "user-nick-id" then prefix + [u, Suffix(n), userIdDisplay]
    else prefix + [u, userIdDisplay]
  }

  /** `renderUsername`: the `try` block, and on any fault the raw
      `author?.nick` alone. The sequence of children is never empty. */
  function RenderUsername(p: Props, s: Settings): (r: seq<Segment>)
    ensures |r| >= 1
    ensures ComposeLabel(p, s).Rendered? ==> |r| >= 2
  {
    match ComposeLabel(p, s)
    case Rendered(segments) => segments
    case Threw(_) => [Plain(FallbackText(p))]
  }

  // ---------------------------------------------------------------------
  // The same output as a table
  // ---------------------------------------------------------------------

  /** The three values a label is made of. */
  datatype Field = UserName | Nick | UserId

  /** A position in a layout: a field shown bare, or inside a suffix span. */
  datatype Slot = Bare(field: Field) | Styled(field: Field)

  /** The values that fill a layout. */
  datatype Names = Names(username: string, nick: string, id: string)

  /** The order and styling of each display mode; the last arm covers
      "user", "user-id" and every unknown mode. */
  function Layout(mode: string): seq<Slot> {
    match mode
    case "user-nick-id" | "user-nick" => [Bare(UserName), Styled(Nick), Bare(UserId)]
    case "nick-user-id" => [Bare(Nick), Styled(UserName), Bare(UserId)]
    case "id-user-nick" => [Bare(UserId), Bare(UserName), Styled(Nick)]
    case "id-nick-user" => [Bare(UserId), Bare(Nick), Styled(UserName)]
    case "user-id-nick" => [Bare(UserName), Bare(UserId), Styled(Nick)]
    case "nick-id-user" => [Bare(Nick), Styled(UserId), Bare(UserName)]
    case "nick-user" => [Bare(Nick), Styled(UserName)]
    case "id-user" => [Bare(UserId), Bare(UserName)]
    case _ => [Bare(UserName), Bare(UserId)]
  }

  function Value(f: Field, n: Names): Segment {
    match f
    case UserName => Plain(n.username)
    case Nick => Plain(n.nick)
    case UserId => Id(n.id)
  }

  function Place(slot: Slot, n: Names): Segment {
    match slot
    case Bare(f) => Value(f, n)
    case Styled(f) => Suffix(Value(f, n))
  }

  /** The segments a layout shows for the given values. */
  function Fill(slots: seq<Slot>, n: Names): seq<Segment> {
    if slots == [] then [] else [Place(slots[0], n)] + Fill(slots[1..], n)
  }

  /** `[Plain("@")]` for a mention, nothing otherwise. */
  function Prefix(withMentionPrefix: bool): seq<Segment> {
    if withMentionPrefix then [Plain("@")] else []
  }

  /** Whether the `try` block throws: no user, no author, or the
      case-insensitive comparison runs (the message is not a reply preview
      while `inReplies` is off) on a missing name. */
  predicate Faults(p: Props, s: Settings) {
    var user := ResolvedUser(p);
    || user.None?
    || p.author.None?
    || (!(p.isRepliedMessage && !s.inReplies)
        && (EffectiveUsername(user.value, s.displayNames).None? || p.author.value.nick.None?))
  }

  /** The values shown by a call that does not fault. */
  function NamesOf(p: Props, s: Settings): Names
    requires ResolvedUser(p).Some? && p.author.Some?
  {
    var user := ResolvedUser(p).value;
    Names(Text(EffectiveUsername(user, s.displayNames)), Text(p.author.value.nick), user.id)
  }

  /** What `catch` shows: the raw nickname, or nothing. */
  function FallbackText(p: Props): string {
    if p.author.Some? then Text(p.author.value.nick) else ""
  }

  // ---------------------------------------------------------------------
  // Tallies over segments and slots
  // ---------------------------------------------------------------------

  /** Number of id spans, bare or inside a suffix span. */
  function IdCount(segs: seq<Segment>): nat {
    if segs == [] then 0 else (if segs[0].ShowsId() then 1 else 0) + IdCount(segs[1..])
  }

  /** Number of suffix spans. */
  function SuffixCount(segs: seq<Segment>): nat {
    if segs == [] then 0 else (if segs[0].Suffix? then 1 else 0) + SuffixCount(segs[1..])
  }

  /** Number of children that display exactly `t`. */
  function TextCount(segs: seq<Segment>, t: string): nat {
    if segs == [] then 0 else (if segs[0].Shown() == t then 1 else 0) + TextCount(segs[1..], t)
  }

  /** Number of slots that show field `f`. */
  function FieldCount(slots: seq<Slot>, f: Field): nat {
    if slots == [] then 0 else (if slots[0].field == f then 1 else 0) + FieldCount(slots[1..], f)
  }

  /** Number of slots inside a suffix span. */
  function StyledCount(slots: seq<Slot>): nat {
    if slots == [] then 0 else (if slots[0].Styled? then 1 else 0) + StyledCount(slots[1..])
  }
}
