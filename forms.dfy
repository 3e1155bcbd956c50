/** The validators of the join form (home.component.ts) and of the user dialog
    (dialog-user.component.ts): `Validators.required` and `Validators.pattern` with the
    two pattern strings the forms use.

    A pattern is kept as data, piece by piece as it is written, and matched with the
    meaning of a regular expression; the lemmas then say in plain terms which strings
    each pattern accepts. */
module Forms {
  import opened Wrappers

  // ---------------------------------------------------------------------------
  // Patterns

  /** A range `lo-hi` inside a bracket expression; a single character is `c-c`. */
  datatype CharRange = CharRange(lo: char, hi: char)

  /** A bracket expression `[…]` or its negation `[^…]`. */
  datatype CharClass = AnyOf(ranges: seq<CharRange>) | NoneOf(ranges: seq<CharRange>)

  predicate InRanges(ranges: seq<CharRange>, c: char) {
    exists i :: 0 <= i < |ranges| && ranges[i].lo <= c <= ranges[i].hi
  }

  predicate ClassHas(cls: CharClass, c: char) {
    match cls
    case AnyOf(rs) => InRanges(rs, c)
    case NoneOf(rs) => !InRanges(rs, c)
  }

  /** A class repeated between `min` and `max` times (`{min,max}`; a bare class is `{1,1}`). */
  datatype Piece = Piece(cls: CharClass, min: nat, max: nat)

  /** Whole-string match of a sequence of pieces: the form of `^…$` both patterns have. */
  predicate Matches(pieces: seq<Piece>, s: string)
    decreases |pieces|
  {
    if pieces == [] then s == []
    else
      exists k :: pieces[0].min <= k <= pieces[0].max && k <= |s|
        && (forall j :: 0 <= j < k ==> ClassHas(pieces[0].cls, s[j]))
        && Matches(pieces[1..], s[k..])
  }

  const Dash := CharRange('-', '-')
  const Space := CharRange(' ', ' ')

  /** `[^- ]` */
  const Edge := NoneOf([Dash, Space])

  /** `[a-z0-9 _ -]`: the trailing `-` is literal. */
  const NicknameMiddle := AnyOf([CharRange('a', 'z'), CharRange('0', '9'), Space, CharRange('_', '_'), Space, Dash])

  /** `[a-z0-9 _ -.]`: here ` -.` is the range from U+0020 to U+002E. */
  const RoomMiddle := AnyOf([CharRange('a', 'z'), CharRange('0', '9'), Space, CharRange('_', '_'), CharRange(' ', '.')])

  /** `(^[^- ])([a-z0-9 _ -]{1,18})([^- ])$`, anchored at both ends. */
  const NicknamePattern := [Piece(Edge, 1, 1), Piece(NicknameMiddle, 1, 18), Piece(Edge, 1, 1)]

  /** `(^[^- ])([a-z0-9 _ -.]{1,18})([^- ])$`, anchored at both ends. */
  const RoomPattern := [Piece(Edge, 1, 1), Piece(RoomMiddle, 1, 18), Piece(Edge, 1, 1)]

  // ---------------------------------------------------------------------------
  // Validators

  /** `Validators.required`: a value that is present and not empty. */
  predicate Required(v: Option<string>) {
    v.Some? && |v.value| > 0
  }

  /** `Validators.pattern`: an absent or empty value passes; otherwise the whole value
      must match. */
  predicate PatternValid(pattern: seq<Piece>, v: Option<string>) {
    v.None? || |v.value| == 0 || Matches(pattern, v.value)
  }

  predicate NicknameValid(v: Option<string>) {
    Required(v) && PatternValid(NicknamePattern, v)
  }

  predicate RoomValid(v: Option<string>) {
    Required(v) && PatternValid(RoomPattern, v)
  }

  /** The three controls both forms have: nickname, room (the dialog calls it channel)
      and secret. */
  datatype Credentials = Credentials(nickname: Option<string>, room: Option<string>, secret: Option<string>)

  /** The form group is valid when each of its controls is. */
  predicate FormValid(f: Credentials) {
    NicknameValid(f.nickname) && RoomValid(f.room) && Required(f.secret)
  }

  // ---------------------------------------------------------------------------
  // What the patterns accept

  predicate IsEdge(c: char) {
    c != '-' && c != ' '
  }

  predicate IsNicknameMiddle(c: char) {
    'a' <= c <= 'z' || '0' <= c <= '9' || c == ' ' || c == '_' || c == '-'
  }

  predicate IsRoomMiddle(c: char) {
    'a' <= c <= 'z' || '0' <= c <= '9' || c == '_' || ' ' <= c <= '.'
  }

  /** 3 to 20 characters, neither end '-' nor a space, the middle from the nickname class. */
  predicate NicknameShape(s: string) {
    3 <= |s| <= 20 && IsEdge(s[0]) && IsEdge(s[|s| - 1])
    && forall i :: 0 < i < |s| - 1 ==> IsNicknameMiddle(s[i])
  }

  /** 3 to 20 characters, neither end '-' nor a space, the middle from the room class. */
  predicate RoomShape(s: string) {
    3 <= |s| <= 20 && IsEdge(s[0]) && IsEdge(s[|s| - 1])
    && forall i :: 0 < i < |s| - 1 ==> IsRoomMiddle(s[i])
  }

  lemma EdgeClass(c: char)
    ensures ClassHas(Edge, c) <==> IsEdge(c)
  {
    if !IsEdge(c) {
      if c == '-' { assert Edge.ranges[0].lo <= c <= Edge.ranges[0].hi; }
      else { assert Edge.ranges[1].lo <= c <= Edge.ranges[1].hi; }
    }
  }

  lemma NicknameMiddleClass(c: char)
    ensures ClassHas(NicknameMiddle, c) <==> IsNicknameMiddle(c)
  {
    var rs := NicknameMiddle.ranges;
    if IsNicknameMiddle(c) {
      if 'a' <= c <= 'z' { assert rs[0].lo <= c <= rs[0].hi; }
      else if '0' <= c <= '9' { assert rs[1].lo <= c <= rs[1].hi; }
      else if c == ' ' { assert rs[2].lo <= c <= rs[2].hi; }
      else if c == '_' { assert rs[3].lo <= c <= rs[3].hi; }
      else { assert rs[5].lo <= c <= rs[5].hi; }
    }
  }

  lemma RoomMiddleClass(c: char)
    ensures ClassHas(RoomMiddle, c) <==> IsRoomMiddle(c)
  {
    var rs := RoomMiddle.ranges;
    if IsRoomMiddle(c) {
      if 'a' <= c <= 'z' { assert rs[0].lo <= c <= rs[0].hi; }
      else if '0' <= c <= '9' { assert rs[1].lo <= c <= rs[1].hi; }
      else if c == '_' { assert rs[3].lo <= c <= rs[3].hi; }
      else { assert rs[4].lo <= c <= rs[4].hi; }
    }
  }

  /** A single class matched exactly once. */
  lemma MatchesOne(cls: CharClass, s: string)
    ensures Matches([Piece(cls, 1, 1)], s) <==> |s| == 1 && ClassHas(cls, s[0])
  {
    var p := [Piece(cls, 1, 1)];
    assert p[1..] == [];
    if |s| == 1 && ClassHas(cls, s[0]) {
      assert s[1..] == [];
      assert Matches(p[1..], s[1..]);
    }
  }

  /** A middle class repeated 1 to 18 times, then one edge character. */
  lemma MatchesMiddleThenEdge(middle: CharClass, edge: CharClass, t: string)
    ensures Matches([Piece(middle, 1, 18), Piece(edge, 1, 1)], t) <==>
      2 <= |t| <= 19 && ClassHas(edge, t[|t| - 1])
      && forall j :: 0 <= j < |t| - 1 ==> ClassHas(middle, t[j])
  {
    var p := [Piece(middle, 1, 18), Piece(edge, 1, 1)];
    var last := [Piece(edge, 1, 1)];
    assert p[1..] == last;
    if Matches(p, t) {
      var k :| 1 <= k <= 18 && k <= |t|
        && (forall j :: 0 <= j < k ==> ClassHas(middle, t[j]))
        && Matches(last, t[k..]);
      MatchesOne(edge, t[k..]);
    }
    if 2 <= |t| <= 19 && ClassHas(edge, t[|t| - 1]) && forall j :: 0 <= j < |t| - 1 ==> ClassHas(middle, t[j]) {
      var k := |t| - 1;
      MatchesOne(edge, t[k..]);
      assert Matches(last, t[k..]);
    }
  }

  /** The shape both patterns share: one edge character, 1 to 18 middle characters,
      one edge character. */
  lemma MatchesThreePieces(edge: CharClass, middle: CharClass, s: string)
    ensures Matches([Piece(edge, 1, 1), Piece(middle, 1, 18), Piece(edge, 1, 1)], s) <==>
      3 <= |s| <= 20 && ClassHas(edge, s[0]) && ClassHas(edge, s[|s| - 1])
      && forall i :: 0 < i < |s| - 1 ==> ClassHas(middle, s[i])
  {
    var p := [Piece(edge, 1, 1), Piece(middle, 1, 18), Piece(edge, 1, 1)];
    var tail := [Piece(middle, 1, 18), Piece(edge, 1, 1)];
    assert p[1..] == tail;
    if |s| > 0 {
      var t := s[1..];
      MatchesMiddleThenEdge(middle, edge, t);
      assert forall i :: 0 < i < |s| ==> s[i] == t[i - 1];
      assert Matches(p, s) <==> ClassHas(edge, s[0]) && Matches(tail, t);
    }
  }

  /** The nickname pattern accepts exactly the nickname shape. */
  lemma NicknamePatternMeaning(s: string)
    ensures Matches(NicknamePattern, s) <==> NicknameShape(s)
  {
    MatchesThreePieces(Edge, NicknameMiddle, s);
    if |s| >= 3 {
      EdgeClass(s[0]);
      EdgeClass(s[|s| - 1]);
    }
    forall i | 0 < i < |s| - 1 ensures ClassHas(NicknameMiddle, s[i]) <==> IsNicknameMiddle(s[i]) {
      NicknameMiddleClass(s[i]);
    }
  }

  /** The room pattern accepts exactly the room shape. */
  lemma RoomPatternMeaning(s: string)
    ensures Matches(RoomPattern, s) <==> RoomShape(s)
  {
    MatchesThreePieces(Edge, RoomMiddle, s);
    if |s| >= 3 {
      EdgeClass(s[0]);
      EdgeClass(s[|s| - 1]);
    }
    forall i | 0 < i < |s| - 1 ensures ClassHas(RoomMiddle, s[i]) <==> IsRoomMiddle(s[i]) {
      RoomMiddleClass(s[i]);
    }
  }

  /** A nickname control is valid iff it holds a string of the nickname shape. */
  lemma NicknameValidIff(v: Option<string>)
    ensures NicknameValid(v) <==> v.Some? && NicknameShape(v.value)
  {
    if v.Some? { NicknamePatternMeaning(v.value); }
  }

  /** A room control is valid iff it holds a string of the room shape. */
  lemma RoomValidIff(v: Option<string>)
    ensures RoomValid(v) <==> v.Some? && RoomShape(v.value)
  {
    if v.Some? { RoomPatternMeaning(v.value); }
  }

  /** The whole form is valid iff the nickname and the room have their shapes and the
      secret is not empty. */
  lemma FormValidIff(f: Credentials)
    ensures FormValid(f) <==>
      && f.nickname.Some? && NicknameShape(f.nickname.value)
      && f.room.Some? && RoomShape(f.room.value)
      && f.secret.Some? && |f.secret.value| > 0
  {
    NicknameValidIff(f.nickname);
    RoomValidIff(f.room);
  }

  /** Every accepted nickname is an accepted room name, but not conversely: the room
      class also admits the characters U+0021 to U+002C and '.' in the middle. */
  lemma NicknameShapeIsRoomShape(s: string)
    ensures NicknameShape(s) ==> RoomShape(s)
    ensures RoomShape("a.b") && !NicknameShape("a.b")
  {
    assert !IsNicknameMiddle("a.b"[1]);
  }
}
