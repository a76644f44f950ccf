/** What the label composer promises, proved about the model in module
    ShowMeYourName: the branch chain agrees with the mode table, and the
    prefix, id, name and suffix rules and the fallback follow from that. */
module LabelProperties {
  import opened Wrappers
  import opened ShowMeYourName

  // ---------------------------------------------------------------------
  // Facts about filling a layout
  // ---------------------------------------------------------------------

  /** Filling keeps one segment per slot, in order. */
  lemma {:induction false} FillAt(slots: seq<Slot>, n: Names, i: nat)
    requires i < |slots|
    ensures |Fill(slots, n)| == |slots|
    ensures Fill(slots, n)[i] == Place(slots[i], n)
  {
    if |slots| > 1 {
      FillAt(slots[1..], n, if i > 0 then i - 1 else 0);
    }
  }

  /** A placed slot shows its field's value, and is the id span exactly when
      the field is the id. */
  lemma PlaceShows(slot: Slot, n: Names)
    ensures Place(slot, n).ShowsId() <==> slot.field == UserId
    ensures Place(slot, n).Shown()
         == match slot.field case UserName => n.username case Nick => n.nick case UserId => n.id
    ensures Place(slot, n).Suffix? <==> slot.Styled?
  {
  }

  /** The tallies of a filled layout are the tallies of its slots; a name is
      counted by its text only when the three values are distinct. */
  lemma {:induction false} FillTallies(slots: seq<Slot>, n: Names)
    ensures IdCount(Fill(slots, n)) == FieldCount(slots, UserId)
    ensures SuffixCount(Fill(slots, n)) == StyledCount(slots)
    ensures n.username != n.nick && n.username != n.id ==>
              TextCount(Fill(slots, n), n.username) == FieldCount(slots, UserName)
    ensures n.nick != n.username && n.nick != n.id ==>
              TextCount(Fill(slots, n), n.nick) == FieldCount(slots, Nick)
  {
    if slots != [] {
      FillTallies(slots[1..], n);
      PlaceShows(slots[0], n);
      assert Fill(slots, n)[0] == Place(slots[0], n);
      assert Fill(slots, n)[1..] == Fill(slots[1..], n);
    }
  }

  /** The mention prefix adds nothing to the tallies except one "@". */
  lemma PrefixTallies(withMentionPrefix: bool, segs: seq<Segment>)
    ensures IdCount(Prefix(withMentionPrefix) + segs) == IdCount(segs)
    ensures SuffixCount(Prefix(withMentionPrefix) + segs) == SuffixCount(segs)
    ensures forall t :: t != "@" ==> TextCount(Prefix(withMentionPrefix) + segs, t) == TextCount(segs, t)
  {
    if withMentionPrefix {
      assert (Prefix(withMentionPrefix) + segs)[1..] == segs;
    } else {
      assert Prefix(withMentionPrefix) + segs == segs;
    }
  }

  /** Tallies of a layout, read off its first slot and the rest. */
  lemma SlotTalliesCons(slots: seq<Slot>)
    requires slots != []
    ensures forall f :: FieldCount(slots, f) == (if slots[0].field == f then 1 else 0) + FieldCount(slots[1..], f)
    ensures StyledCount(slots) == (if slots[0].Styled? then 1 else 0) + StyledCount(slots[1..])
  {
  }

  /** Every layout has two or three slots; its tallies are those of its
      slots one by one. */
  lemma LayoutSlotTallies(mode: string)
    ensures 2 <= |Layout(mode)| <= 3
    ensures forall f :: FieldCount(Layout(mode), f)
                     == (if Layout(mode)[0].field == f then 1 else 0) + (if Layout(mode)[1].field == f then 1 else 0)
                        + (if |Layout(mode)| == 3 && Layout(mode)[2].field == f then 1 else 0)
    ensures StyledCount(Layout(mode))
         == (if Layout(mode)[0].Styled? then 1 else 0) + (if Layout(mode)[1].Styled? then 1 else 0)
            + (if |Layout(mode)| == 3 && Layout(mode)[2].Styled? then 1 else 0)
  {
    var l := Layout(mode);
    SlotTalliesCons(l);
    SlotTalliesCons(l[1..]);
    if |l| == 3 {
      SlotTalliesCons(l[2..]);
      assert l[1..][1..] == l[2..];
    } else {
      assert l[1..][1..] == [];
    }
  }

  // ---------------------------------------------------------------------
  // The mode table
  // ---------------------------------------------------------------------

  /** Every layout shows the username once, the id once except in
      "nick-user", and the nickname once, in a suffix span or as the leading
      name, exactly in the nick-bearing modes, with exactly one suffix span
      there and none elsewhere. */
  lemma LayoutTallies(mode: string)
    ensures FieldCount(Layout(mode), UserName) == 1
    ensures FieldCount(Layout(mode), UserId) == if mode == "nick-user" then 0 else 1
    ensures FieldCount(Layout(mode), Nick) == if mode in NickModes then 1 else 0
    ensures StyledCount(Layout(mode)) == if mode in NickModes then 1 else 0
  {
    LayoutSlotTallies(mode);
  }

  /** A mode outside the select list gets the layout of "user" and
      "user-id": username then id. */
  lemma UnknownModesUseDefault(mode: string)
    requires mode !in Modes
    ensures Layout(mode) == Layout("user") == Layout("user-id") == [Bare(UserName), Bare(UserId)]
  {
  }

  // ---------------------------------------------------------------------
  // The composer agrees with the table
  // ---------------------------------------------------------------------

  /** A layout of two or three slots fills to the placed slots. */
  lemma FillShort(slots: seq<Slot>, n: Names)
    requires 2 <= |slots| <= 3
    ensures |slots| == 2 ==> Fill(slots, n) == [Place(slots[0], n), Place(slots[1], n)]
    ensures |slots| == 3 ==> Fill(slots, n) == [Place(slots[0], n), Place(slots[1], n), Place(slots[2], n)]
  {
    forall i | 0 <= i < |slots|
      ensures |Fill(slots, n)| == |slots| && Fill(slots, n)[i] == Place(slots[i], n)
    {
      FillAt(slots, n, i);
    }
  }

  /** The chain of mode checks (ShowMeYourName/index.tsx lines 86-113) shows, for every mode, the
      prefix followed by the mode's row of the table. */
  lemma ModeChainMeetsTable(mode: string, prefix: seq<Segment>, n: Names)
    ensures ModeChain(mode, prefix, Plain(n.username), Plain(n.nick), Id(n.id)) == prefix + Fill(Layout(mode), n)
  {
    LayoutSlotTallies(mode);
    FillShort(Layout(mode), n);
  }

  /** The branch chain of `renderUsername` throws exactly when `Faults`
      holds; then the label is the raw nickname alone, and otherwise it is
      the optional "@" followed by the mode's layout. The collapse test
      (ShowMeYourName/index.tsx line 81) does not appear on the right: it never changes the label. */
  lemma RenderUsernameMeetsTable(p: Props, s: Settings)
    ensures ComposeLabel(p, s).Threw? <==> Faults(p, s)
    ensures Faults(p, s) ==> RenderUsername(p, s) == [Plain(FallbackText(p))]
    ensures !Faults(p, s) ==>
              RenderUsername(p, s) == Prefix(p.withMentionPrefix) + Fill(Layout(s.mode), NamesOf(p, s))
  {
    if !Faults(p, s) {
      var n := NamesOf(p, s);
      ModeChainMeetsTable(s.mode, Prefix(p.withMentionPrefix), n);
      ModeChainMeetsTable("user-id", Prefix(p.withMentionPrefix), n);
    }
  }

  /** The mode setting never decides whether the call throws: every
      statement that can throw (index.tsx lines 72, 76 and 81) runs before
      any mode check. */
  lemma FaultsIgnoreMode(p: Props, s: Settings, mode: string)
    ensures ComposeLabel(p, s).Threw? <==> ComposeLabel(p, s.(mode := mode)).Threw?
  {
    RenderUsernameMeetsTable(p, s);
    RenderUsernameMeetsTable(p, s.(mode := mode));
  }

  /** "user-nick" and "user-nick-id" render identically. */
  lemma UserNickIsUserNickId(p: Props, s: Settings)
    ensures RenderUsername(p, s.(mode := "user-nick")) == RenderUsername(p, s.(mode := "user-nick-id"))
  {
    RenderUsernameMeetsTable(p, s.(mode := "user-nick"));
    RenderUsernameMeetsTable(p, s.(mode := "user-nick-id"));
  }

  /** The collapse branch only ever returns for "user-id", and what it
      returns is the default arm's label: "user-id" renders exactly as
      "user" and as any unknown mode, whatever the reply flags and names. */
  lemma CollapseBranchIsDefault(p: Props, s: Settings, other: string)
    requires other !in Modes
    ensures RenderUsername(p, s.(mode := "user-id")) == RenderUsername(p, s.(mode := "user"))
    ensures RenderUsername(p, s.(mode := "user-id")) == RenderUsername(p, s.(mode := other))
  {
    RenderUsernameMeetsTable(p, s.(mode := "user-id"));
    RenderUsernameMeetsTable(p, s.(mode := "user"));
    RenderUsernameMeetsTable(p, s.(mode := other));
    UnknownModesUseDefault(other);
  }

  /** Whether the message is a reply preview and whether the plugin applies
      to reply previews change only whether a missing name faults, never a
      label that renders. */
  lemma ReplyFlagsIrrelevant(p: Props, s: Settings, replied: bool, inReplies: bool)
    requires !Faults(p, s)
    requires !Faults(p.(isRepliedMessage := replied), s.(inReplies := inReplies))
    ensures RenderUsername(p, s) == RenderUsername(p.(isRepliedMessage := replied), s.(inReplies := inReplies))
  {
    RenderUsernameMeetsTable(p, s);
    RenderUsernameMeetsTable(p.(isRepliedMessage := replied), s.(inReplies := inReplies));
  }

  /** "user", "user-id" and every unknown mode show the username, then the
      id span. */
  lemma UsernameThenId(p: Props, s: Settings)
    requires s.mode == "user" || s.mode == "user-id" || s.mode !in Modes
    requires !Faults(p, s)
    ensures RenderUsername(p, s)
         == Prefix(p.withMentionPrefix) + [Plain(NamesOf(p, s).username), Id(NamesOf(p, s).id)]
  {
    RenderUsernameMeetsTable(p, s);
  }

  // ---------------------------------------------------------------------
  // Username resolution and prefix
  // ---------------------------------------------------------------------

  /** The username role shows the override user's names when there is one,
      else the message author's; the global name replaces the username when
      display names are on and it is non-empty; the nickname is never
      substituted. */
  lemma UsernameResolution(p: Props, s: Settings)
    requires !Faults(p, s)
    ensures var user := if p.userOverride.Some? then p.userOverride.value else p.messageAuthor.value;
            var g := user.globalName;
            && NamesOf(p, s).username
               == (if s.displayNames && g.Some? && g.value != "" then g.value else Text(user.username))
            && NamesOf(p, s).id == user.id
            && NamesOf(p, s).nick == Text(p.author.value.nick)
  {
  }

  /** Turning display names on or off changes only the username slots of a
      label that renders: the prefix, the nickname and the id stay as they
      were, in the same places. */
  lemma DisplayNamesChangeOnlyUsername(p: Props, s: Settings, displayNames: bool)
    requires !Faults(p, s) && !Faults(p, s.(displayNames := displayNames))
    ensures |RenderUsername(p, s)| == |RenderUsername(p, s.(displayNames := displayNames))|
    ensures forall i :: 0 <= i < |RenderUsername(p, s)| &&
                        RenderUsername(p, s)[i] != RenderUsername(p, s.(displayNames := displayNames))[i] ==>
              var k := if p.withMentionPrefix then 1 else 0;
              k <= i && Layout(s.mode)[i - k].field == UserName
  {
    var s' := s.(displayNames := displayNames);
    RenderUsernameMeetsTable(p, s);
    RenderUsernameMeetsTable(p, s');
    var n, n' := NamesOf(p, s), NamesOf(p, s');
    assert n.nick == n'.nick && n.id == n'.id;
    TableLabelSlots(RenderUsername(p, s), p.withMentionPrefix, Layout(s.mode), n);
    TableLabelSlots(RenderUsername(p, s'), p.withMentionPrefix, Layout(s.mode), n');
  }

  /** With a mention prefix the label starts with exactly "@" followed by
      the mode's layout; without one every segment is a layout slot, so no
      prefix text appears. */
  lemma MentionPrefix(p: Props, s: Settings)
    requires !Faults(p, s)
    ensures p.withMentionPrefix ==>
              && |RenderUsername(p, s)| == |Layout(s.mode)| + 1
              && RenderUsername(p, s)[0] == Plain("@")
              && forall i :: 0 < i < |RenderUsername(p, s)| ==>
                   RenderUsername(p, s)[i] == Place(Layout(s.mode)[i - 1], NamesOf(p, s))
    ensures !p.withMentionPrefix ==>
              && |RenderUsername(p, s)| == |Layout(s.mode)|
              && forall i :: 0 <= i < |RenderUsername(p, s)| ==>
                   RenderUsername(p, s)[i] == Place(Layout(s.mode)[i], NamesOf(p, s))
  {
    RenderUsernameMeetsTable(p, s);
    TableLabelSlots(RenderUsername(p, s), p.withMentionPrefix, Layout(s.mode), NamesOf(p, s));
  }

  /** The id span occurs once, except in "nick-user" where it is absent, and
      every id span holds the user's id unchanged. */
  lemma IdSegment(p: Props, s: Settings)
    requires !Faults(p, s)
    ensures IdCount(RenderUsername(p, s)) == if s.mode == "nick-user" then 0 else 1
    ensures forall i :: 0 <= i < |RenderUsername(p, s)| && RenderUsername(p, s)[i].ShowsId() ==>
              RenderUsername(p, s)[i].Shown() == ResolvedUser(p).value.id
  {
    RenderUsernameMeetsTable(p, s);
    TableLabelIds(RenderUsername(p, s), p.withMentionPrefix, s.mode, NamesOf(p, s));
  }

  /** When username, nickname, id and "@" are four different texts, the
      username is shown exactly once, and the nickname exactly once in the
      nick-bearing modes and never in the others. */
  lemma NameCounts(p: Props, s: Settings)
    requires !Faults(p, s)
    requires var n := NamesOf(p, s);
             && n.username != n.nick && n.username != n.id && n.nick != n.id
             && n.username != "@" && n.nick != "@"
    ensures TextCount(RenderUsername(p, s), NamesOf(p, s).username) == 1
    ensures TextCount(RenderUsername(p, s), NamesOf(p, s).nick) == if s.mode in NickModes then 1 else 0
  {
    RenderUsernameMeetsTable(p, s);
    TableLabelNames(RenderUsername(p, s), p.withMentionPrefix, s.mode, NamesOf(p, s));
  }

  /** The nick-bearing modes wrap exactly one segment in a suffix span and
      the others none; only "nick-id-user" puts the id inside it, followed
      by the bare username. */
  lemma SuffixStyling(p: Props, s: Settings)
    requires !Faults(p, s)
    ensures SuffixCount(RenderUsername(p, s)) == if s.mode in NickModes then 1 else 0
    ensures s.mode == "nick-id-user" ==>
              var r := RenderUsername(p, s);
              |r| >= 3 && r[|r| - 2] == Suffix(Id(NamesOf(p, s).id)) && r[|r| - 1] == Plain(NamesOf(p, s).username)
    ensures s.mode != "nick-id-user" ==>
              forall i :: 0 <= i < |RenderUsername(p, s)| && RenderUsername(p, s)[i].Suffix? ==>
                !RenderUsername(p, s)[i].inner.ShowsId()
  {
    RenderUsernameMeetsTable(p, s);
    TableLabelSuffixes(RenderUsername(p, s), p.withMentionPrefix, s.mode, NamesOf(p, s));
  }

  // ---------------------------------------------------------------------
  // The same facts about any label the table produces
  // ---------------------------------------------------------------------

  /** A table label is the optional "@" followed by the placed slots. */
  lemma TableLabelSlots(r: seq<Segment>, w: bool, slots: seq<Slot>, n: Names)
    requires r == Prefix(w) + Fill(slots, n)
    ensures w ==> |r| == |slots| + 1 && r[0] == Plain("@")
    ensures !w ==> |r| == |slots|
    ensures forall i :: (if w then 1 else 0) <= i < |r| ==> r[i] == Place(slots[i - (if w then 1 else 0)], n)
  {
    var k := if w then 1 else 0;
    forall i | 0 <= i < |slots|
      ensures |Fill(slots, n)| == |slots| && Fill(slots, n)[i] == Place(slots[i], n)
    {
      FillAt(slots, n, i);
    }
    if slots == [] {
      assert Fill(slots, n) == [];
    }
    assert |Fill(slots, n)| == |slots|;
    forall i | k <= i < |r|
      ensures r[i] == Place(slots[i - k], n)
    {
      assert r[i] == Fill(slots, n)[i - k];
    }
  }

  lemma TableLabelIds(r: seq<Segment>, w: bool, mode: string, n: Names)
    requires r == Prefix(w) + Fill(Layout(mode), n)
    ensures IdCount(r) == if mode == "nick-user" then 0 else 1
    ensures forall i :: 0 <= i < |r| && r[i].ShowsId() ==> r[i].Shown() == n.id
  {
    FillTallies(Layout(mode), n);
    PrefixTallies(w, Fill(Layout(mode), n));
    LayoutTallies(mode);
    TableLabelSlots(r, w, Layout(mode), n);
    var k := if w then 1 else 0;
    forall i | 0 <= i < |r| && r[i].ShowsId()
      ensures r[i].Shown() == n.id
    {
      if i >= k {
        PlaceShows(Layout(mode)[i - k], n);
      }
    }
  }

  lemma TableLabelNames(r: seq<Segment>, w: bool, mode: string, n: Names)
    requires r == Prefix(w) + Fill(Layout(mode), n)
    requires n.username != n.nick && n.username != n.id && n.nick != n.id
    requires n.username != "@" && n.nick != "@"
    ensures TextCount(r, n.username) == 1
    ensures TextCount(r, n.nick) == if mode in NickModes then 1 else 0
  {
    FillTallies(Layout(mode), n);
    PrefixTallies(w, Fill(Layout(mode), n));
    LayoutTallies(mode);
  }

  lemma TableLabelSuffixes(r: seq<Segment>, w: bool, mode: string, n: Names)
    requires r == Prefix(w) + Fill(Layout(mode), n)
    ensures SuffixCount(r) == if mode in NickModes then 1 else 0
    ensures mode == "nick-id-user" ==>
              |r| >= 3 && r[|r| - 2] == Suffix(Id(n.id)) && r[|r| - 1] == Plain(n.username)
    ensures mode != "nick-id-user" ==>
              forall i :: 0 <= i < |r| && r[i].Suffix? ==> !r[i].inner.ShowsId()
  {
    TableLabelSuffixCount(r, w, mode, n);
    if mode == "nick-id-user" {
      FillShort(Layout(mode), n);
    } else {
      TableLabelNoIdSuffix(r, w, mode, n);
    }
  }

  lemma TableLabelSuffixCount(r: seq<Segment>, w: bool, mode: string, n: Names)
    requires r == Prefix(w) + Fill(Layout(mode), n)
    ensures SuffixCount(r) == if mode in NickModes then 1 else 0
  {
    FillTallies(Layout(mode), n);
    PrefixTallies(w, Fill(Layout(mode), n));
    LayoutTallies(mode);
  }

  lemma TableLabelNoIdSuffix(r: seq<Segment>, w: bool, mode: string, n: Names)
    requires r == Prefix(w) + Fill(Layout(mode), n)
    requires mode != "nick-id-user"
    ensures forall i :: 0 <= i < |r| && r[i].Suffix? ==> !r[i].inner.ShowsId()
  {
    TableLabelSlots(r, w, Layout(mode), n);
    StyledIdOnlyInNickIdUser(mode);
    var k := if w then 1 else 0;
    forall i | 0 <= i < |r| && r[i].Suffix?
      ensures !r[i].inner.ShowsId()
    {
      if i >= k {
        PlaceShows(Layout(mode)[i - k], n);
      }
    }
  }

  /** Only "nick-id-user" puts the id in the suffix span. */
  lemma StyledIdOnlyInNickIdUser(mode: string)
    requires mode != "nick-id-user"
    ensures forall j :: 0 <= j < |Layout(mode)| && Layout(mode)[j].Styled? ==> Layout(mode)[j].field != UserId
  {
  }

  // ---------------------------------------------------------------------
  // The fallback
  // ---------------------------------------------------------------------

  /** When the comparison (ShowMeYourName/index.tsx line 81) runs and the nickname is missing, the
      label is the fallback: a single empty segment. */
  lemma ComparedMissingNickFallsBack(p: Props, s: Settings)
    requires !(p.isRepliedMessage && !s.inReplies)
    requires p.author.Some? && p.author.value.nick.None?
    ensures RenderUsername(p, s) == [Plain("")]
  {
    RenderUsernameMeetsTable(p, s);
  }

  /** When the user record is missing the label is the raw nickname alone. */
  lemma MissingUserFallsBack(p: Props, s: Settings)
    requires p.userOverride.None? && p.messageAuthor.None?
    ensures RenderUsername(p, s) == [Plain(if p.author.Some? then Text(p.author.value.nick) else "")]
  {
  }

  /** In a reply preview while `inReplies` is off, the comparison is skipped:
      missing names do not fault, and show as empty text in the mode's
      layout. */
  lemma SkippedComparisonTolerates(p: Props, s: Settings)
    requires p.isRepliedMessage && !s.inReplies
    requires ResolvedUser(p).Some? && p.author.Some?
    ensures !Faults(p, s)
    ensures RenderUsername(p, s) == Prefix(p.withMentionPrefix) + Fill(Layout(s.mode), NamesOf(p, s))
  {
    RenderUsernameMeetsTable(p, s);
  }

  // ---------------------------------------------------------------------
  // Worked examples
  // ---------------------------------------------------------------------

  /** alice / Al / 123456789 without prefix, in the modes that start with
      the nickname. */
  lemma AliceNickFirstExamples()
    ensures var p := Props(Some(Author(Some("Al"))), Some(User(Some("alice"), None, "123456789")), false, false, None);
            var s := Settings("", false, false);
            && RenderUsername(p, s.(mode := "nick-user-id")) == [Plain("Al"), Suffix(Plain("alice")), Id("123456789")]
            && RenderUsername(p, s.(mode := "nick-id-user")) == [Plain("Al"), Suffix(Id("123456789")), Plain("alice")]
            && RenderUsername(p, s.(mode := "nick-user")) == [Plain("Al"), Suffix(Plain("alice"))]
  {
  }

  /** alice / Al / 123456789 without prefix, in the modes that start with
      the id. */
  lemma AliceIdFirstExamples()
    ensures var p := Props(Some(Author(Some("Al"))), Some(User(Some("alice"), None, "123456789")), false, false, None);
            var s := Settings("", false, false);
            && RenderUsername(p, s.(mode := "id-user-nick")) == [Id("123456789"), Plain("alice"), Suffix(Plain("Al"))]
            && RenderUsername(p, s.(mode := "id-nick-user")) == [Id("123456789"), Plain("Al"), Suffix(Plain("alice"))]
            && RenderUsername(p, s.(mode := "id-user")) == [Id("123456789"), Plain("alice")]
  {
  }

  /** alice / Al / 123456789 without prefix, in the modes that start with
      the username. */
  lemma AliceUserFirstExamples()
    ensures var p := Props(Some(Author(Some("Al"))), Some(User(Some("alice"), None, "123456789")), false, false, None);
            var s := Settings("", false, false);
            && RenderUsername(p, s.(mode := "user-id-nick")) == [Plain("alice"), Id("123456789"), Suffix(Plain("Al"))]
            && RenderUsername(p, s.(mode := "user-nick")) == [Plain("alice"), Suffix(Plain("Al")), Id("123456789")]
            && RenderUsername(p, s.(mode := "user-nick-id")) == [Plain("alice"), Suffix(Plain("Al")), Id("123456789")]
            && RenderUsername(p, s.(mode := "user-id")) == [Plain("alice"), Id("123456789")]
            && RenderUsername(p, s.(mode := "user")) == [Plain("alice"), Id("123456789")]
  {
  }

  /** Bob / bob in "user-id", in and out of a reply preview: username then
      id, and no nickname. */
  lemma CollapseExamples()
    ensures var bob := User(Some("Bob"), None, "42");
            var p := Props(Some(Author(Some("bob"))), Some(bob), false, false, None);
            && RenderUsername(p, Settings("user-id", false, false)) == [Plain("Bob"), Id("42")]
            && RenderUsername(p.(isRepliedMessage := true), Settings("user-id", false, false)) == [Plain("Bob"), Id("42")]
  {
  }

  /** With display names on, the global name "Bobby" is shown in place of
      "bob123", after the mention prefix. */
  lemma DisplayNameExample()
    ensures var bobby := User(Some("bob123"), Some("Bobby"), "7");
            var p := Props(Some(Author(Some("B"))), None, false, true, Some(bobby));
            RenderUsername(p, Settings("user-nick", true, false)) == [Plain("@"), Plain("Bobby"), Suffix(Plain("B")), Id("7")]
  {
    var bobby := User(Some("bob123"), Some("Bobby"), "7");
    assert EffectiveUsername(bobby, true) == Some("Bobby");
  }
}
