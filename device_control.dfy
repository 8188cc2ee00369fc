/** The device-control service: recognising the control marker a language
    model appends to its reply, removing it before speech synthesis, and
    dispatching on/off commands to the devices of a room. */
module DeviceControl {
  import opened JavaLang
  import opened Devices

  // ================================================================ the marker
  //
  // The marker is the regular expression
  //     \[DEVICE_CTL\]\s*room=([^\s]+)\s+action=(on|off)
  // compiled case-insensitively (US-ASCII folding). It is recognised here by hand:
  // greedy `\s*`, `[^\s]+` and `\s+` never need to backtrack, because what follows
  // each of them (the letter 'r', a white-space unit, the letter 'a') cannot be
  // matched by the part of the run given back, so the first attempt at each
  // position is the only one that can succeed.

  const Tag := "[DEVICE_CTL]"
  const RoomKey := "room="
  const ActionKey := "action="

  /** What `parseIntent` hands on: the room and whether to switch on. */
  datatype Intent = Intent(room: string, turnOn: bool)

  /** One occurrence of the marker: its span, the raw room group and the action. */
  datatype Marker = Marker(start: nat, end: nat, room: string, turnOn: bool)

  /** `s[i..]` starts with `lit` up to ASCII case. */
  predicate MatchesAt(s: string, i: nat, lit: string) {
    i + |lit| <= |s| && EqualsIgnoreCaseAscii(s[i..i + |lit|], lit)
  }

  /** End of the longest run of `\s` units starting at `j`. */
  function SpaceRunEnd(s: string, j: nat): (k: nat)
    requires j <= |s|
    ensures j <= k <= |s|
    ensures forall m | j <= m < k :: IsRegexSpace(s[m])
    ensures k == |s| || !IsRegexSpace(s[k])
    decreases |s| - j
  {
    if j < |s| && IsRegexSpace(s[j]) then SpaceRunEnd(s, j + 1) else j
  }

  /** End of the longest run of non-`\s` units starting at `j`. */
  function TokenEnd(s: string, j: nat): (k: nat)
    requires j <= |s|
    ensures j <= k <= |s|
    ensures forall m | j <= m < k :: !IsRegexSpace(s[m])
    ensures k == |s| || IsRegexSpace(s[k])
    decreases |s| - j
  {
    if j < |s| && !IsRegexSpace(s[j]) then TokenEnd(s, j + 1) else j
  }

  /** The action word at `v`; "on" is tried before "off". */
  function ActionAt(s: string, i: nat, t: nat, k: nat, v: nat): (r: Option<Marker>)
    requires i < t < k <= v <= |s|
    ensures r.Some? ==> r.value.start == i && v < r.value.end <= |s| && r.value.room == s[t..k]
  {
    if MatchesAt(s, v, "on") then Some(Marker(i, v + 2, s[t..k], true))
    else if MatchesAt(s, v, "off") then Some(Marker(i, v + 3, s[t..k], false))
    else None
  }

  /** After the room token `s[t..k]`: at least one `\s`, then "action=". */
  function AfterToken(s: string, i: nat, t: nat, k: nat): (r: Option<Marker>)
    requires i < t <= k <= |s|
    ensures r.Some? ==> r.value.start == i && k < r.value.end <= |s| && r.value.room == s[t..k] && t < k
  {
    var a := SpaceRunEnd(s, k);
    if k == t || a == k || !MatchesAt(s, a, ActionKey) then None
    else ActionAt(s, i, t, k, a + |ActionKey|)
  }

  /** After the tag and its optional white space, ending at `j`: "room=" and the token. */
  function AfterTag(s: string, i: nat, j: nat): (r: Option<Marker>)
    requires i < j <= |s|
    ensures r.Some? ==> r.value.start == i && j < r.value.end <= |s| && |r.value.room| > 0
  {
    if !MatchesAt(s, j, RoomKey) then None
    else
      var t := j + |RoomKey|;
      AfterToken(s, i, t, TokenEnd(s, t))
  }

  /** The marker starting exactly at `i`, if there is one. */
  function MatchAt(s: string, i: nat): (r: Option<Marker>)
    requires i <= |s|
    ensures r.Some? ==> r.value.start == i && i < r.value.end <= |s| && |r.value.room| > 0
  {
    if !MatchesAt(s, i, Tag) then None
    else AfterTag(s, i, SpaceRunEnd(s, i + |Tag|))
  }

  /** `Matcher.find()` from position `i`: the leftmost marker at or after `i`. */
  function FindFrom(s: string, i: nat): (r: Option<Marker>)
    requires i <= |s|
    ensures r.Some? ==> i <= r.value.start <= |s| && MatchAt(s, r.value.start) == r
    ensures r.Some? ==> forall j | i <= j < r.value.start :: MatchAt(s, j).None?
    ensures r.None? ==> forall j | i <= j <= |s| :: MatchAt(s, j).None?
    decreases |s| - i
  {
    var here := MatchAt(s, i);
    if here.Some? then here
    else if i == |s| then None
    else FindFrom(s, i + 1)
  }

  /** `parseIntent`: nothing for a null or blank reply or one without a marker;
      otherwise the first marker's room (trimmed) and whether its action is "on". */
  function ParseIntent(reply: Option<string>): (r: Option<Intent>)
    ensures r.Some? <==> !IsNullOrBlank(reply) && FindFrom(reply.value, 0).Some?
    ensures r.Some? ==> var m := FindFrom(reply.value, 0).value;
                        r.value == Intent(Trim(m.room), m.turnOn)
  {
    if IsNullOrBlank(reply) then None
    else
      match FindFrom(reply.value, 0)
      case None => None
      case Some(m) => Some(Intent(Trim(m.room), m.turnOn))
  }

  // ================================================================ stripping

  /** `replaceAll(marker, "")` from position `i`: every non-overlapping marker,
      scanning left to right, is cut out; the text around it stays. */
  function RemoveMarkersFrom(s: string, i: nat): (r: string)
    requires i <= |s|
    ensures |r| <= |s| - i
    decreases |s| - i
  {
    match FindFrom(s, i)
    case None => s[i..]
    case Some(m) => s[i..m.start] + RemoveMarkersFrom(s, m.end)
  }

  /** Position of the last '\n' in `s[lo..hi]`. */
  function LastNewline(s: string, lo: nat, hi: nat): (r: Option<nat>)
    requires lo <= hi <= |s|
    ensures r.Some? ==> lo <= r.value < hi && s[r.value] == '\n'
    ensures r.Some? ==> forall m | r.value < m < hi :: s[m] != '\n'
    ensures r.None? ==> forall m | lo <= m < hi :: s[m] != '\n'
    decreases hi - lo
  {
    if hi == lo then None
    else if s[hi - 1] == '\n' then Some(hi - 1)
    else LastNewline(s, lo, hi - 1)
  }

  /** End of the match of `\n\s*\n` starting at `i`: a '\n', then the greedy run
      of `\s`, given back up to and including its last '\n'. */
  function BlankRunAt(s: string, i: nat): (r: Option<nat>)
    requires i <= |s|
    ensures r.Some? ==> i + 2 <= r.value <= |s| && s[i] == '\n' && s[r.value - 1] == '\n'
  {
    if i < |s| && s[i] == '\n' then
      match LastNewline(s, i + 1, SpaceRunEnd(s, i + 1))
      case Some(m) => Some(m + 1)
      case None => None
    else None
  }

  /** `replaceAll("\\n\\s*\\n", "\n")` from position `i`: each blank-line run,
      scanning left to right, becomes one '\n'. */
  function CollapseFrom(s: string, i: nat): (r: string)
    requires i <= |s|
    ensures |r| <= |s| - i
    decreases |s| - i
  {
    if i == |s| then []
    else
      match BlankRunAt(s, i)
      case Some(e) => "\n" + CollapseFrom(s, e)
      case None => [s[i]] + CollapseFrom(s, i + 1)
  }

  /** `stripDeviceControlLine`: "" for null; otherwise the reply with every marker
      removed, blank-line runs collapsed, and the result trimmed. */
  function StripDeviceControlLine(reply: Option<string>): (r: string)
    ensures reply.Some? ==> |r| <= |reply.value|
    ensures r == [] || (!IsTrimSpace(r[0]) && !IsTrimSpace(r[|r| - 1]))
  {
    if reply.None? then ""
    else Trim(CollapseFrom(RemoveMarkersFrom(reply.value, 0), 0))
  }

  // ---------------------------------------------------------------- properties

  /** Collapsing changes nothing when no blank-line run starts at or after `i`. */
  lemma {:induction false} CollapseIdentity(s: string, i: nat)
    requires i <= |s|
    requires forall j | i <= j < |s| :: BlankRunAt(s, j).None?
    ensures CollapseFrom(s, i) == s[i..]
    decreases |s| - i
  {
    if i < |s| {
      CollapseIdentity(s, i + 1);
      assert s[i..] == [s[i]] + s[i + 1..];
    }
  }

  /** A reply without a marker and without a blank line is only trimmed. */
  lemma StripWithoutMarkerIsTrim(s: string)
    requires forall j | 0 <= j <= |s| :: MatchAt(s, j).None?
    requires forall j | 0 <= j < |s| :: BlankRunAt(s, j).None?
    ensures ParseIntent(Some(s)) == None
    ensures StripDeviceControlLine(Some(s)) == Trim(s)
  {
    assert FindFrom(s, 0).None?;
    assert RemoveMarkersFrom(s, 0) == s;
    CollapseIdentity(s, 0);
  }

  /** The marker `SpaceRunEnd` reaches is the end of a known run of white space. */
  lemma {:induction false} SpaceRunEndAt(s: string, a: nat, b: nat)
    requires a <= b < |s|
    requires forall m | a <= m < b :: IsRegexSpace(s[m])
    requires !IsRegexSpace(s[b])
    ensures SpaceRunEnd(s, a) == b
    decreases b - a
  {
    if a < b {
      SpaceRunEndAt(s, a + 1, b);
    }
  }

  lemma {:induction false} TokenEndAt(s: string, a: nat, b: nat)
    requires a <= b < |s|
    requires forall m | a <= m < b :: !IsRegexSpace(s[m])
    requires IsRegexSpace(s[b])
    ensures TokenEnd(s, a) == b
    decreases b - a
  {
    if a < b {
      TokenEndAt(s, a + 1, b);
    }
  }

  /** Nothing can match at a position that does not hold '['. */
  lemma NoMatchWithoutBracket(s: string, j: nat)
    requires j < |s| && s[j] != '['
    ensures MatchAt(s, j).None?
  {
    if j + |Tag| <= |s| {
      var w := s[j..j + |Tag|];
      assert LowerAsciiString(w)[0] == LowerAscii(s[j]) != '[';
      assert LowerAsciiString(Tag)[0] == '[';
    }
    assert !MatchesAt(s, j, Tag);
  }

  /** `find` returns the first position that matches. */
  lemma {:induction false} FindFromFirst(s: string, i: nat, k: nat)
    requires i <= k <= |s|
    requires forall j | i <= j < k :: MatchAt(s, j).None?
    requires MatchAt(s, k).Some?
    ensures FindFrom(s, i) == MatchAt(s, k)
    decreases k - i
  {
    if i < k {
      FindFromFirst(s, i + 1, k);
    }
  }

  /** Whatever `MatchAt` recognises is a well-formed marker: the text it spans
      splits into the marker's parts, and the room group and action it reports
      are that marker's. */
  lemma MatchAtSound(s: string, i: nat)
    requires i <= |s| && MatchAt(s, i).Some?
    ensures var m := MatchAt(s, i).value;
            exists tag, gap, roomKey, room, sep, actionKey, action ::
              && WellFormedMarker(tag, gap, roomKey, room, sep, actionKey, action)
              && s[i..m.end] == MarkerText(tag, gap, roomKey, room, sep, actionKey, action)
              && m.room == room && m.turnOn == EqualsIgnoreCaseAscii(action, "on")
  {
    var m := MatchAt(s, i).value;
    var p1, p2, p3, p4, p5, p6 := MatchAtParts(s, i);
    ActionWord(s, i, p3, p4, p6);
    SlicesWellFormed(s, i, p1, p2, p3, p4, p5, p6, m.end);
    SevenParts(s, i, p1, p2, p3, p4, p5, p6, m.end);
  }

  /** The slices between the positions `MatchAtParts` finds are the parts of a
      well-formed marker. */
  lemma SlicesWellFormed(s: string, p0: nat, p1: nat, p2: nat, p3: nat, p4: nat, p5: nat, p6: nat, p7: nat)
    requires p0 < p1 <= p2 < p3 < p4 < p5 < p6 < p7 <= |s|
    requires p1 == p0 + |Tag| && p3 == p2 + |RoomKey| && p6 == p5 + |ActionKey|
    requires MatchesAt(s, p0, Tag) && MatchesAt(s, p2, RoomKey) && MatchesAt(s, p5, ActionKey)
    requires forall q | p1 <= q < p2 :: IsRegexSpace(s[q])
    requires forall q | p3 <= q < p4 :: !IsRegexSpace(s[q])
    requires forall q | p4 <= q < p5 :: IsRegexSpace(s[q])
    requires EqualsIgnoreCaseAscii(s[p6..p7], "on") || EqualsIgnoreCaseAscii(s[p6..p7], "off")
    ensures WellFormedMarker(s[p0..p1], s[p1..p2], s[p2..p3], s[p3..p4], s[p4..p5], s[p5..p6], s[p6..p7])
  {
    var gap, room, sep := s[p1..p2], s[p3..p4], s[p4..p5];
    forall k | 0 <= k < |gap| ensures IsRegexSpace(gap[k]) {
      assert gap[k] == s[p1 + k];
    }
    forall k | 0 <= k < |sep| ensures IsRegexSpace(sep[k]) {
      assert sep[k] == s[p4 + k];
    }
    forall k | 0 <= k < |room| ensures !IsRegexSpace(room[k]) {
      assert room[k] == s[p3 + k];
    }
  }

  /** An intent is only ever read from a well-formed marker written in the
      reply: its room is that marker's room token, trimmed, and it switches on
      exactly when the action is "on" in some case. */
  lemma ParseIntentSound(reply: string)
    requires ParseIntent(Some(reply)).Some?
    ensures var intent := ParseIntent(Some(reply)).value;
            exists p, tag, gap, roomKey, room, sep, actionKey, action ::
              && WellFormedMarker(tag, gap, roomKey, room, sep, actionKey, action)
              && OccursAt(reply, MarkerText(tag, gap, roomKey, room, sep, actionKey, action), p)
              && intent == Intent(Trim(room), EqualsIgnoreCaseAscii(action, "on"))
  {
    MarkerOccurs(reply, FindFrom(reply, 0).value.start);
  }

  /** The marker `MatchAt` recognises at `i` occurs there in full. */
  lemma MarkerOccurs(s: string, i: nat)
    requires i <= |s| && MatchAt(s, i).Some?
    ensures var m := MatchAt(s, i).value;
            exists p, tag, gap, roomKey, room, sep, actionKey, action ::
              && WellFormedMarker(tag, gap, roomKey, room, sep, actionKey, action)
              && OccursAt(s, MarkerText(tag, gap, roomKey, room, sep, actionKey, action), p)
              && Intent(Trim(m.room), m.turnOn) == Intent(Trim(room), EqualsIgnoreCaseAscii(action, "on"))
  {
    var m := MatchAt(s, i).value;
    MatchAtSound(s, i);
    var tag, gap, roomKey, room, sep, actionKey, action :|
      && WellFormedMarker(tag, gap, roomKey, room, sep, actionKey, action)
      && s[i..m.end] == MarkerText(tag, gap, roomKey, room, sep, actionKey, action)
      && m.room == room && m.turnOn == EqualsIgnoreCaseAscii(action, "on");
    assert OccursAt(s, MarkerText(tag, gap, roomKey, room, sep, actionKey, action), i);
  }

  /** Where the parts of the marker `MatchAt` recognises begin: the tag at `i`,
      white space from `p1`, "room=" at `p2`, the room token from `p3`, white
      space from `p4`, "action=" at `p5` and the action word at `p6`. */
  lemma MatchAtParts(s: string, i: nat) returns (p1: nat, p2: nat, p3: nat, p4: nat, p5: nat, p6: nat)
    requires i <= |s| && MatchAt(s, i).Some?
    ensures var m := MatchAt(s, i).value;
            && i < p1 <= p2 < p3 < p4 < p5 < p6 < m.end <= |s|
            && p1 == i + |Tag| && p3 == p2 + |RoomKey| && p6 == p5 + |ActionKey|
            && MatchesAt(s, i, Tag) && MatchesAt(s, p2, RoomKey) && MatchesAt(s, p5, ActionKey)
            && (forall q | p1 <= q < p2 :: IsRegexSpace(s[q]))
            && (forall q | p3 <= q < p4 :: !IsRegexSpace(s[q]))
            && (forall q | p4 <= q < p5 :: IsRegexSpace(s[q]))
            && ActionAt(s, i, p3, p4, p6) == Some(m)
  {
    var m := MatchAt(s, i).value;
    p1, p2 := TagStep(s, i, m);
    p3, p4 := RoomStep(s, i, p2, m);
    p5, p6 := SepStep(s, i, p3, p4, m);
  }

  /** At the tag: its white space, then the rest. */
  lemma TagStep(s: string, i: nat, m: Marker) returns (p1: nat, p2: nat)
    requires i <= |s| && MatchAt(s, i) == Some(m)
    ensures i < p1 <= p2 <= |s| && p1 == i + |Tag| && MatchesAt(s, i, Tag)
    ensures forall q | p1 <= q < p2 :: IsRegexSpace(s[q])
    ensures AfterTag(s, i, p2) == Some(m)
  {
    p1 := i + |Tag|;
    p2 := SpaceRunEnd(s, p1);
  }

  /** Past the tag and its white space: "room=" and the token. */
  lemma RoomStep(s: string, i: nat, j: nat, m: Marker) returns (p3: nat, p4: nat)
    requires i < j <= |s| && AfterTag(s, i, j) == Some(m)
    ensures j < p3 <= p4 <= |s| && p3 == j + |RoomKey| && MatchesAt(s, j, RoomKey)
    ensures forall q | p3 <= q < p4 :: !IsRegexSpace(s[q])
    ensures AfterToken(s, i, p3, p4) == Some(m)
  {
    p3 := j + |RoomKey|;
    p4 := TokenEnd(s, p3);
  }

  /** Past the room token: white space, "action=" and the action word. */
  lemma SepStep(s: string, i: nat, t: nat, k: nat, m: Marker) returns (p5: nat, p6: nat)
    requires i < t <= k <= |s| && AfterToken(s, i, t, k) == Some(m)
    ensures t < k < p5 < p6 < m.end <= |s| && p6 == p5 + |ActionKey| && MatchesAt(s, p5, ActionKey)
    ensures forall q | k <= q < p5 :: IsRegexSpace(s[q])
    ensures ActionAt(s, i, t, k, p6) == Some(m)
  {
    p5 := SpaceRunEnd(s, k);
    p6 := p5 + |ActionKey|;
  }

  /** The action `ActionAt` reads is "on" or "off" in some case, and it reports
      whether it is "on". */
  lemma ActionWord(s: string, i: nat, t: nat, k: nat, v: nat)
    requires i < t < k <= v <= |s| && ActionAt(s, i, t, k, v).Some?
    ensures var m := ActionAt(s, i, t, k, v).value;
            var action := s[v..m.end];
            && (EqualsIgnoreCaseAscii(action, "on") || EqualsIgnoreCaseAscii(action, "off"))
            && m.turnOn == EqualsIgnoreCaseAscii(action, "on")
  {
    if !MatchesAt(s, v, "on") {
      var action := s[v..v + 3];
      assert |LowerAsciiString(action)| != |LowerAsciiString("on")|;
    }
  }

  /** Seven adjacent slices make up the slice they span. */
  lemma SevenParts(s: string, p0: nat, p1: nat, p2: nat, p3: nat, p4: nat, p5: nat, p6: nat, p7: nat)
    requires p0 <= p1 <= p2 <= p3 <= p4 <= p5 <= p6 <= p7 <= |s|
    ensures s[p0..p7] == MarkerText(s[p0..p1], s[p1..p2], s[p2..p3], s[p3..p4], s[p4..p5], s[p5..p6], s[p6..p7])
  {
    assert s[p0..p2] == s[p0..p1] + s[p1..p2];
    assert s[p0..p3] == s[p0..p2] + s[p2..p3];
    assert s[p0..p4] == s[p0..p3] + s[p3..p4];
    assert s[p0..p5] == s[p0..p4] + s[p4..p5];
    assert s[p0..p6] == s[p0..p5] + s[p5..p6];
    assert s[p0..p7] == s[p0..p6] + s[p6..p7];
  }

  /** The parts of a well-formed marker: the three keywords in any ASCII case,
      optional white space after the tag, a room token without white space,
      at least one white-space unit before the action, and "on" or "off". */
  predicate WellFormedMarker(tag: string, gap: string, roomKey: string, room: string,
                             sep: string, actionKey: string, action: string)
  {
    && EqualsIgnoreCaseAscii(tag, Tag)
    && EqualsIgnoreCaseAscii(roomKey, RoomKey)
    && EqualsIgnoreCaseAscii(actionKey, ActionKey)
    && (EqualsIgnoreCaseAscii(action, "on") || EqualsIgnoreCaseAscii(action, "off"))
    && (forall k | 0 <= k < |gap| :: IsRegexSpace(gap[k]))
    && |sep| > 0 && (forall k | 0 <= k < |sep| :: IsRegexSpace(sep[k]))
    && |room| > 0 && (forall k | 0 <= k < |room| :: !IsRegexSpace(room[k]))
  }

  function MarkerText(tag: string, gap: string, roomKey: string, room: string,
                      sep: string, actionKey: string, action: string): string
  {
    tag + gap + roomKey + room + sep + actionKey + action
  }

  /** A concatenation written at `i` splits into its two halves there. */
  lemma SplitAt(s: string, i: nat, x: string, y: string)
    requires i + |x| + |y| <= |s| && s[i..i + |x| + |y|] == x + y
    ensures s[i..i + |x|] == x && s[i + |x|..i + |x| + |y|] == y
  {
    var w := s[i..i + |x| + |y|];
    assert s[i..i + |x|] == w[..|x|];
    assert s[i + |x|..i + |x| + |y|] == w[|x|..];
  }

  /** `r` is the marker spanning `start..end` with that room group and action. */
  predicate Recognised(r: Option<Marker>, start: nat, end: nat, room: string, turnOn: bool) {
    r.Some? && r.value.start == start && r.value.end == end && r.value.room == room && r.value.turnOn == turnOn
  }

  /** A well-formed marker written at position `i` of `s` is recognised there,
      with its room token and action. */
  lemma MarkerRecognised(s: string, i: nat, tag: string, gap: string, roomKey: string, room: string,
                         sep: string, actionKey: string, action: string)
    requires WellFormedMarker(tag, gap, roomKey, room, sep, actionKey, action)
    requires var marker := MarkerText(tag, gap, roomKey, room, sep, actionKey, action);
             i + |marker| <= |s| && s[i..i + |marker|] == marker
    ensures var marker := MarkerText(tag, gap, roomKey, room, sep, actionKey, action);
            Recognised(MatchAt(s, i), i, i + |marker|, room, EqualsIgnoreCaseAscii(action, "on"))
  {
    var m2 := tag + gap;
    var m3 := m2 + roomKey;
    var m4 := m3 + room;
    var m5 := m4 + sep;
    var m6 := m5 + actionKey;
    SplitAt(s, i, m6, action);
    SplitAt(s, i, m5, actionKey);
    SplitAt(s, i, m4, sep);
    SplitAt(s, i, m3, room);
    SplitAt(s, i, m2, roomKey);
    SplitAt(s, i, tag, gap);
    MarkerAtPositions(s, i, i + |tag|, i + |m2|, i + |m3|, i + |m4|, i + |m5|, i + |m6|, i + |m6| + |action|,
                      tag, gap, roomKey, room, sep, actionKey, action);
  }

  /** MatchAt over a text whose marker parts sit at known positions. */
  lemma MarkerAtPositions(s: string, i: nat, p1: nat, p2: nat, p3: nat, p4: nat, p5: nat, p6: nat, p7: nat,
                          tag: string, gap: string, roomKey: string, room: string,
                          sep: string, actionKey: string, action: string)
    requires WellFormedMarker(tag, gap, roomKey, room, sep, actionKey, action)
    requires i <= p1 <= p2 <= p3 <= p4 <= p5 <= p6 <= p7 <= |s|
    requires s[i..p1] == tag && s[p1..p2] == gap && s[p2..p3] == roomKey && s[p3..p4] == room
    requires s[p4..p5] == sep && s[p5..p6] == actionKey && s[p6..p7] == action
    ensures Recognised(MatchAt(s, i), i, p7, room, EqualsIgnoreCaseAscii(action, "on"))
  {
    var on := EqualsIgnoreCaseAscii(action, "on");
    calc {
      MatchAt(s, i);
      { TagPart(s, i, p1, p2, p3, tag, gap, roomKey); }
      AfterTag(s, i, p2);
      { RoomPart(s, i, p2, p3, p4, p5, roomKey, room, sep); }
      AfterToken(s, i, p3, p4);
      { SepPart(s, i, p3, p4, p5, p6, sep, actionKey); }
      ActionAt(s, i, p3, p4, p6);
      { ActionRecognised(s, i, p3, p4, p6, action); }
      Some(Marker(i, p6 + |action|, s[p3..p4], on));
    }
  }

  /** The tag, then optional white space, then "room=" at `p2`. */
  lemma TagPart(s: string, i: nat, p1: nat, p2: nat, p3: nat, tag: string, gap: string, roomKey: string)
    requires EqualsIgnoreCaseAscii(tag, Tag) && EqualsIgnoreCaseAscii(roomKey, RoomKey)
    requires forall k | 0 <= k < |gap| :: IsRegexSpace(gap[k])
    requires i <= p1 <= p2 <= p3 <= |s|
    requires s[i..p1] == tag && s[p1..p2] == gap && s[p2..p3] == roomKey
    ensures MatchAt(s, i) == AfterTag(s, i, p2)
  {
    assert |tag| == |Tag| && |roomKey| == |RoomKey|;
    assert LowerAscii(s[p2]) == 'r' by {
      assert s[p2] == roomKey[0];
      assert LowerAsciiString(roomKey)[0] == LowerAsciiString(RoomKey)[0];
    }
    forall m | p1 <= m < p2 ensures IsRegexSpace(s[m]) {
      assert s[m] == gap[m - p1];
    }
    SpaceRunEndAt(s, p1, p2);
  }

  /** "room=" at `p2`, then the room token `s[p3..p4]`, then white space. */
  lemma RoomPart(s: string, i: nat, p2: nat, p3: nat, p4: nat, p5: nat, roomKey: string, room: string, sep: string)
    requires EqualsIgnoreCaseAscii(roomKey, RoomKey)
    requires |room| > 0 && (forall k | 0 <= k < |room| :: !IsRegexSpace(room[k]))
    requires |sep| > 0 && (forall k | 0 <= k < |sep| :: IsRegexSpace(sep[k]))
    requires i < p2 <= p3 <= p4 <= p5 <= |s|
    requires s[p2..p3] == roomKey && s[p3..p4] == room && s[p4..p5] == sep
    ensures AfterTag(s, i, p2) == AfterToken(s, i, p3, p4)
  {
    assert |roomKey| == |RoomKey|;
    forall m | p3 <= m < p4 ensures !IsRegexSpace(s[m]) {
      assert s[m] == room[m - p3];
    }
    assert s[p4] == sep[0];
    TokenEndAt(s, p3, p4);
  }

  /** White space `s[p4..p5]`, then "action=" ending at `p6`. */
  lemma SepPart(s: string, i: nat, p3: nat, p4: nat, p5: nat, p6: nat, sep: string, actionKey: string)
    requires EqualsIgnoreCaseAscii(actionKey, ActionKey)
    requires |sep| > 0 && (forall k | 0 <= k < |sep| :: IsRegexSpace(sep[k]))
    requires i < p3 < p4 <= p5 <= p6 <= |s|
    requires s[p4..p5] == sep && s[p5..p6] == actionKey
    ensures AfterToken(s, i, p3, p4) == ActionAt(s, i, p3, p4, p6)
  {
    assert |actionKey| == |ActionKey|;
    assert LowerAscii(s[p5]) == 'a' by {
      assert s[p5] == actionKey[0];
      assert LowerAsciiString(actionKey)[0] == LowerAsciiString(ActionKey)[0];
    }
    forall m | p4 <= m < p5 ensures IsRegexSpace(s[m]) {
      assert s[m] == sep[m - p4];
    }
    SpaceRunEndAt(s, p4, p5);
  }

  /** The action word written at `v` decides between "on" and "off". */
  lemma ActionRecognised(s: string, i: nat, t: nat, k: nat, v: nat, action: string)
    requires EqualsIgnoreCaseAscii(action, "on") || EqualsIgnoreCaseAscii(action, "off")
    requires i < t < k <= v && v + |action| <= |s| && s[v..v + |action|] == action
    ensures ActionAt(s, i, t, k, v) == Some(Marker(i, v + |action|, s[t..k], EqualsIgnoreCaseAscii(action, "on")))
  {
    if EqualsIgnoreCaseAscii(action, "on") {
      assert |action| == 2 by {
        assert |LowerAsciiString(action)| == |LowerAsciiString("on")|;
      }
      assert MatchesAt(s, v, "on");
    } else {
      assert |action| == 3 by {
        assert |LowerAsciiString(action)| == |LowerAsciiString("off")|;
      }
      var f := LowerAscii(action[1]);
      assert f == 'f' by {
        assert LowerAsciiString(action)[1] == f;
        assert LowerAsciiString("off")[1] == LowerAscii('f');
      }
      assert !MatchesAt(s, v, "on") by {
        var w := s[v..v + 2];
        assert w[1] == action[1];
        assert LowerAsciiString(w)[1] == f;
        assert LowerAsciiString("on")[1] == LowerAscii('n');
      }
      assert MatchesAt(s, v, "off") by {
        assert s[v..v + 3] == action;
      }
    }
  }

  /** Recognising a marker written into a reply: text without '[' before and
      after it, the marker in any of its accepted spellings. The room and action
      are recovered, and stripping keeps exactly the text around the marker. */
  lemma ParseAndStripMarker(prefix: string, tag: string, gap: string, roomKey: string, room: string,
                            sep: string, actionKey: string, action: string, suffix: string)
    requires WellFormedMarker(tag, gap, roomKey, room, sep, actionKey, action)
    requires forall k | 0 <= k < |prefix| :: prefix[k] != '['
    requires forall k | 0 <= k < |suffix| :: suffix[k] != '['
    ensures var s := prefix + MarkerText(tag, gap, roomKey, room, sep, actionKey, action) + suffix;
            && ParseIntent(Some(s)) == Some(Intent(Trim(room), EqualsIgnoreCaseAscii(action, "on")))
            && RemoveMarkersFrom(s, 0) == prefix + suffix
            && StripDeviceControlLine(Some(s)) == Trim(CollapseFrom(prefix + suffix, 0))
  {
    var marker := MarkerText(tag, gap, roomKey, room, sep, actionKey, action);
    var s := prefix + marker + suffix;
    var p0 := |prefix|;
    var p7 := p0 + |marker|;
    var on := EqualsIgnoreCaseAscii(action, "on");
    MarkerOpens(tag, gap, roomKey, room, sep, actionKey, action);
    ThreeParts(prefix, marker, suffix);
    FoundAfterPrefix(s, prefix, tag, gap, roomKey, room, sep, actionKey, action);
    IntentOfFound(s, p0, p7, room, on);
    StripOfFound(s, prefix, suffix, p7, room, on);
  }

  /** A one-line answer followed by a marker line: the intent is the marker's,
      and what is spoken is exactly the answer. */
  lemma StripAnswerThenMarker(answer: string, tag: string, gap: string, roomKey: string, room: string,
                              sep: string, actionKey: string, action: string)
    requires WellFormedMarker(tag, gap, roomKey, room, sep, actionKey, action)
    requires forall k | 0 <= k < |answer| :: answer[k] != '[' && answer[k] != '\n'
    requires answer == [] || (!IsTrimSpace(answer[0]) && !IsTrimSpace(answer[|answer| - 1]))
    ensures var reply := answer + "\n" + MarkerText(tag, gap, roomKey, room, sep, actionKey, action);
            && ParseIntent(Some(reply)) == Some(Intent(Trim(room), EqualsIgnoreCaseAscii(action, "on")))
            && StripDeviceControlLine(Some(reply)) == answer
  {
    var t := answer + "\n";
    assert forall k | 0 <= k < |t| :: t[k] != '[';
    ParseAndStripMarker(t, tag, gap, roomKey, room, sep, actionKey, action, "");
    assert t + "" == t;
    assert answer + "\n" + MarkerText(tag, gap, roomKey, room, sep, actionKey, action)
        == t + MarkerText(tag, gap, roomKey, room, sep, actionKey, action) + "";
    CollapseCopies(t, 0, |answer|);
    assert t[0..|answer|] == answer;
    CollapseLastNewline(t);
    TrimOneTrailing(answer, '\n');
  }

  /** A final '\n' is copied by collapsing. */
  lemma CollapseLastNewline(t: string)
    requires |t| > 0 && t[|t| - 1] == '\n'
    ensures CollapseFrom(t, |t| - 1) == "\n"
  {
    assert BlankRunAt(t, |t| - 1).None?;
  }

  /** Trimming a string that neither starts nor ends with white space, with one
      white-space unit appended, gives the string back. */
  lemma TrimOneTrailing(a: string, c: char)
    requires a == [] || (!IsTrimSpace(a[0]) && !IsTrimSpace(a[|a| - 1]))
    requires IsTrimSpace(c)
    ensures Trim(a + [c]) == a
  {
    var s := a + [c];
    var r := Trim(s);
    if a == [] {
      TrimEmptyIffAllTrimSpace(s);
    } else {
      assert TrimStart(s) == 0 by { assert !IsTrimSpace(s[0]); }
      assert s[|a| - 1] == a[|a| - 1] && s[|a|] == c;
      assert r == s[..|a|] == a;
    }
  }

  /** Collapsing copies a stretch without '\n' unchanged. */
  lemma {:induction false} CollapseCopies(s: string, i: nat, j: nat)
    requires i <= j <= |s|
    requires forall k | i <= k < j :: s[k] != '\n'
    ensures CollapseFrom(s, i) == s[i..j] + CollapseFrom(s, j)
    decreases j - i
  {
    if i < j {
      var rest := CollapseFrom(s, j);
      calc {
        CollapseFrom(s, i);
        { CollapseStep(s, i); }
        [s[i]] + CollapseFrom(s, i + 1);
        { CollapseCopies(s, i + 1, j); }
        [s[i]] + (s[i + 1..j] + rest);
        { assert s[i..j] == [s[i]] + s[i + 1..j]; }
        s[i..j] + rest;
      }
    }
  }

  /** A character other than '\n' is copied by collapsing. */
  lemma CollapseStep(s: string, i: nat)
    requires i < |s| && s[i] != '\n'
    ensures CollapseFrom(s, i) == [s[i]] + CollapseFrom(s, i + 1)
  {
  }

  /** A blank line between two lines, `a + "\n" + ws + "\n" + b` with `ws` only
      whitespace, collapses to a single '\n'; the line after it is collapsed in
      turn, and kept as it is when it holds no '\n'. */
  lemma CollapseBlankLine(a: string, ws: string, b: string)
    requires forall k | 0 <= k < |a| :: a[k] != '\n'
    requires forall k | 0 <= k < |ws| :: IsRegexSpace(ws[k])
    requires b == [] || !IsRegexSpace(b[0])
    ensures var s := a + "\n" + ws + "\n" + b;
            CollapseFrom(s, 0) == a + "\n" + CollapseFrom(s, |s| - |b|)
    ensures (forall k | 0 <= k < |b| :: b[k] != '\n') ==>
            CollapseFrom(a + "\n" + ws + "\n" + b, 0) == a + "\n" + b
  {
    var s := a + "\n" + ws + "\n" + b;
    var q := |a| + |ws| + 2;
    BlankLineParts(a, ws, b);
    CollapseAtBlankRun(s, |a|, q);
    if forall k | 0 <= k < |b| :: b[k] != '\n' {
      forall k | q <= k < |s| ensures s[k] != '\n' {
        assert s[k] == b[k - q];
      }
      CollapseTail(s, q);
      assert CollapseFrom(s, 0) == a + "\n" + b;
    }
  }

  /** Collapsing a text whose first '\n' opens a blank-line run ending at `q`. */
  lemma CollapseAtBlankRun(s: string, i: nat, q: nat)
    requires i + 2 <= q <= |s| && s[i] == '\n' && s[q - 1] == '\n'
    requires forall k | 0 <= k < i :: s[k] != '\n'
    requires forall k | i + 1 <= k < q :: IsRegexSpace(s[k])
    requires q == |s| || !IsRegexSpace(s[q])
    ensures CollapseFrom(s, 0) == s[..i] + "\n" + CollapseFrom(s, q)
  {
    CollapseCopies(s, 0, i);
    BlankRunExact(s, i, q);
    assert s[0..i] == s[..i];
  }

  /** Collapsing a tail without '\n' keeps it. */
  lemma CollapseTail(s: string, q: nat)
    requires q <= |s| && forall k | q <= k < |s| :: s[k] != '\n'
    ensures CollapseFrom(s, q) == s[q..]
  {
    CollapseCopies(s, q, |s|);
  }

  /** Where the parts of `a + "\n" + ws + "\n" + b` sit. */
  lemma BlankLineParts(a: string, ws: string, b: string)
    requires forall k | 0 <= k < |a| :: a[k] != '\n'
    requires forall k | 0 <= k < |ws| :: IsRegexSpace(ws[k])
    requires b == [] || !IsRegexSpace(b[0])
    ensures var s := a + "\n" + ws + "\n" + b;
            var q := |a| + |ws| + 2;
            && q <= |s| && s[|a|] == '\n' && s[q - 1] == '\n' && s[q..] == b && s[..|a|] == a
            && (forall k | q <= k < |s| :: s[k] == b[k - q])
            && (forall k | 0 <= k < |a| :: s[k] != '\n')
            && (forall k | |a| + 1 <= k < q :: IsRegexSpace(s[k]))
            && (q == |s| || !IsRegexSpace(s[q]))
  {
    var s := a + "\n" + ws + "\n" + b;
    var q := |a| + |ws| + 2;
    forall k | |a| + 1 <= k < q ensures IsRegexSpace(s[k]) {
      if k < q - 1 { assert s[k] == ws[k - |a| - 1]; }
    }
    forall k | 0 <= k < |a| ensures s[k] != '\n' {
      assert s[k] == a[k];
    }
  }

  /** A '\n' at `i`, white space up to `q` and a '\n' just before `q`, with no
      white space at `q`: the blank-line run from `i` ends exactly at `q`. */
  lemma BlankRunExact(s: string, i: nat, q: nat)
    requires i + 2 <= q <= |s| && s[i] == '\n' && s[q - 1] == '\n'
    requires forall k | i + 1 <= k < q :: IsRegexSpace(s[k])
    requires q == |s| || !IsRegexSpace(s[q])
    ensures BlankRunAt(s, i) == Some(q)
    ensures CollapseFrom(s, i) == "\n" + CollapseFrom(s, q)
  {
    assert SpaceRunEnd(s, i + 1) == q;
  }

  /** A marker text opens with '['. */
  lemma MarkerOpens(tag: string, gap: string, roomKey: string, room: string,
                    sep: string, actionKey: string, action: string)
    requires EqualsIgnoreCaseAscii(tag, Tag)
    ensures var m := MarkerText(tag, gap, roomKey, room, sep, actionKey, action);
            |m| > 0 && m[0] == '['
  {
    assert LowerAsciiString(tag)[0] == LowerAsciiString(Tag)[0];
  }

  /** Where the three parts of `a + b + c` sit. */
  lemma ThreeParts(a: string, b: string, c: string)
    ensures var s := a + b + c;
            && s[..|a|] == a && s[|a|..|a| + |b|] == b && s[|a| + |b|..] == c
            && (|b| > 0 ==> s[|a|] == b[0])
  {
  }

  /** The intent of a reply is read from the first marker `find` returns. */
  lemma IntentOfFound(s: string, p0: nat, p7: nat, room: string, on: bool)
    requires p0 < |s| && s[p0] == '['
    requires Recognised(FindFrom(s, 0), p0, p7, room, on)
    ensures ParseIntent(Some(s)) == Some(Intent(Trim(room), on))
  {
    assert !IsBlank(s) by {
      assert !IsWhitespace(s[p0]);
    }
    var f := FindFrom(s, 0);
    assert f.Some? && f.value.room == room && f.value.turnOn == on;
  }

  /** With one marker ending at `p7` and no '[' after it, stripping cuts out
      exactly that marker. */
  lemma StripOfFound(s: string, prefix: string, suffix: string, p7: nat, room: string, on: bool)
    requires |prefix| <= p7 <= |s| && s[..|prefix|] == prefix && s[p7..] == suffix
    requires forall k | 0 <= k < |suffix| :: suffix[k] != '['
    requires Recognised(FindFrom(s, 0), |prefix|, p7, room, on)
    ensures RemoveMarkersFrom(s, 0) == prefix + suffix
  {
    NoMarkerIn(s, suffix, p7);
    assert s[0..|prefix|] == prefix;
  }

  /** The marker after a prefix without '[' is the one `find` returns first. */
  lemma FoundAfterPrefix(s: string, prefix: string, tag: string, gap: string, roomKey: string, room: string,
                         sep: string, actionKey: string, action: string)
    requires WellFormedMarker(tag, gap, roomKey, room, sep, actionKey, action)
    requires forall k | 0 <= k < |prefix| :: prefix[k] != '['
    requires var marker := MarkerText(tag, gap, roomKey, room, sep, actionKey, action);
             |prefix| + |marker| <= |s| && s[..|prefix|] == prefix
             && s[|prefix|..|prefix| + |marker|] == marker
    ensures var marker := MarkerText(tag, gap, roomKey, room, sep, actionKey, action);
            Recognised(FindFrom(s, 0), |prefix|, |prefix| + |marker|, room, EqualsIgnoreCaseAscii(action, "on"))
  {
    MarkerRecognised(s, |prefix|, tag, gap, roomKey, room, sep, actionKey, action);
    FindAfterPrefix(s, prefix, |prefix|);
  }

  /** A marker right after a prefix without '[' is the first one `find` sees. */
  lemma FindAfterPrefix(s: string, prefix: string, p0: nat)
    requires p0 == |prefix| <= |s| && s[..p0] == prefix
    requires forall k | 0 <= k < |prefix| :: prefix[k] != '['
    requires MatchAt(s, p0).Some?
    ensures FindFrom(s, 0) == MatchAt(s, p0)
  {
    forall j | 0 <= j < p0 ensures MatchAt(s, j).None? {
      assert s[j] == prefix[j];
      NoMatchWithoutBracket(s, j);
    }
    FindFromFirst(s, 0, p0);
  }

  /** A tail without '[' holds no marker. */
  lemma NoMarkerIn(s: string, suffix: string, p7: nat)
    requires p7 <= |s| && s[p7..] == suffix
    requires forall k | 0 <= k < |suffix| :: suffix[k] != '['
    ensures FindFrom(s, p7).None?
  {
    forall j | p7 <= j <= |s| ensures MatchAt(s, j).None? {
      if j < |s| {
        assert s[j] == suffix[j - p7];
        NoMatchWithoutBracket(s, j);
      }
    }
  }

  // ================================================================ dispatch

  /** The HTTP request `sendControl` issues. */
  datatype ControlRequest =
    | Get(url: string)
    | PostJson(url: string, body: string)
    | PostEmpty(url: string)

  /** A line terminator as `$` in a non-multiline Java pattern recognises it. */
  predicate IsLineTerminator(c: char) {
    c == '\n' || c == '\r' || c == '\U{0085}' || c == '\U{2028}' || c == '\U{2029}'
  }

  /** Where `$` of a non-multiline Java pattern matches at `p`: the end of the
      input, before a final line terminator, or before a final "\r\n". */
  predicate DollarAt(s: string, p: nat)
    requires p <= |s|
  {
    || p == |s|
    || (p == |s| - 1 && IsLineTerminator(s[p]) && !(s[p] == '\n' && p > 0 && s[p - 1] == '\r'))
    || (p == |s| - 2 && s[p] == '\r' && s[p + 1] == '\n')
  }

  /** `replaceAll("/$", "")`: removes the '/' that `$` can follow, if any. */
  function StripTrailingSlash(s: string): (r: string)
    ensures |r| == |s| || |r| == |s| - 1
    ensures EndsWith(s, "/") ==> r == s[..|s| - 1]
  {
    if |s| >= 1 && s[|s| - 1] == '/' then s[..|s| - 1]
    else if |s| >= 2 && s[|s| - 2] == '/' && DollarAt(s, |s| - 1) then s[..|s| - 2] + s[|s| - 1..]
    else if |s| >= 3 && s[|s| - 3] == '/' && DollarAt(s, |s| - 2) then s[..|s| - 3] + s[|s| - 2..]
    else s
  }

  /** The removed unit is a '/' that `$` may follow, and when nothing is removed
      no '/' stands where `$` may follow it. At most one '/' goes. */
  lemma StripTrailingSlashRemovesSlashBeforeEnd(s: string)
    ensures StripTrailingSlash(s) != s ==>
              exists p | 0 <= p < |s| :: s[p] == '/' && DollarAt(s, p + 1) && StripTrailingSlash(s) == s[..p] + s[p + 1..]
    ensures StripTrailingSlash(s) == s ==> forall p | 0 <= p < |s| && s[p] == '/' :: !DollarAt(s, p + 1)
  {
    var r := StripTrailingSlash(s);
    if r != s {
      if |s| >= 1 && s[|s| - 1] == '/' {
        assert s[..|s| - 1] + s[|s|..] == s[..|s| - 1];
      } else if |s| >= 2 && s[|s| - 2] == '/' && DollarAt(s, |s| - 1) {
      } else {
        assert |s| >= 3 && s[|s| - 3] == '/' && DollarAt(s, |s| - 2);
      }
    } else {
      forall p | 0 <= p < |s| && s[p] == '/' ensures !DollarAt(s, p + 1) {
        if DollarAt(s, p + 1) {
          assert false;
        }
      }
    }
  }

  /** `turnOn ? controlOn : controlOff`. */
  function Command(d: Device, turnOn: bool): Option<string> {
    if turnOn then d.controlOn else d.controlOff
  }

  /** `raw` when it already starts with '/', otherwise "/" + raw. */
  function AsPath(raw: string): (r: string)
    ensures StartsWith(r, "/")
  {
    if StartsWith(raw, "/") then raw else "/" + raw
  }

  /** The request `sendControl` sends for a device and action: none without a
      non-blank connection URL or command; GET to the command (absolute when it
      starts with "http", else appended to the URL) when the method is "GET" in any
      case; otherwise POST with the command as JSON body when it begins with '{' or
      '[' after trimming, else an empty POST to the URL plus the command as path. */
  function ControlTarget(d: Device, turnOn: bool): (r: Option<ControlRequest>)
    ensures r.Some? <==> !IsNullOrBlank(d.connectionUrl) && !IsNullOrBlank(Command(d, turnOn))
  {
    if IsNullOrBlank(d.connectionUrl) then None
    else
      var raw := Command(d, turnOn);
      if IsNullOrBlank(raw) then None
      else
        var base := StripTrailingSlash(d.connectionUrl.value);
        var cmd := raw.value;
        if NullableEqualsIgnoreCase("GET", d.controlMethod) then
          Some(Get(if StartsWith(cmd, "http") then cmd else base + AsPath(cmd)))
        else if StartsWith(Trim(cmd), "{") || StartsWith(Trim(cmd), "[") then
          Some(PostJson(base, cmd))
        else
          Some(PostEmpty(base + AsPath(cmd)))
  }

  /** For a URL ending in '/' and a command starting with '/', the two are joined
      with a single '/': the URL's own trailing '/' is dropped. */
  lemma JoinedWithOneSlash(d: Device, turnOn: bool)
    requires d.connectionUrl.Some? && EndsWith(d.connectionUrl.value, "/") && !IsBlank(d.connectionUrl.value)
    requires Command(d, turnOn).Some? && StartsWith(Command(d, turnOn).value, "/")
    requires !StartsWith(Trim(Command(d, turnOn).value), "{") && !StartsWith(Trim(Command(d, turnOn).value), "[")
    ensures var url := d.connectionUrl.value;
            var cmd := Command(d, turnOn).value;
            ControlTarget(d, turnOn) ==
              if NullableEqualsIgnoreCase("GET", d.controlMethod) && !StartsWith(cmd, "http")
              then Some(Get(url[..|url| - 1] + cmd))
              else if NullableEqualsIgnoreCase("GET", d.controlMethod) then Some(Get(cmd))
              else Some(PostEmpty(url[..|url| - 1] + cmd))
  {
    assert !IsBlank(Command(d, turnOn).value) by {
      assert Command(d, turnOn).value[0] == '/';
    }
  }

  /** `sendControl`: false without a request to send, otherwise whether the
      transport reports a 2xx answer. `transport` stands for the HTTP client: it
      returns false for a non-2xx status and for any exception, which the
      service catches. */
  function SendControl(d: Device, turnOn: bool, transport: ControlRequest -> bool): (ok: bool)
    ensures ok ==> !IsNullOrBlank(d.connectionUrl) && !IsNullOrBlank(Command(d, turnOn))
  {
    match ControlTarget(d, turnOn)
    case None => false
    case Some(req) => transport(req)
  }

  /** How many of `ds` accept the command. */
  function CountAccepted(ds: seq<Device>, turnOn: bool, transport: ControlRequest -> bool): (n: nat)
    ensures n <= |ds|
  {
    if ds == [] then 0
    else CountAccepted(ds[..|ds| - 1], turnOn, transport) + (if SendControl(ds[|ds| - 1], turnOn, transport) then 1 else 0)
  }

  /** The devices `executeByRoom` addresses: all enabled devices for "all" (any
      ASCII case), otherwise the enabled devices of that room. */
  function Targets(rows: seq<Device>, room: string): seq<Device> {
    if EqualsIgnoreCaseAscii("all", room) then FindByEnabledTrue(rows) else FindByRoomAndEnabledTrue(rows, room)
  }

  /** `executeByRoom`: send the command to every addressed device, counting successes. */
  method ExecuteByRoom(rows: seq<Device>, room: string, turnOn: bool, transport: ControlRequest -> bool)
    returns (ok: nat)
    ensures ok == CountAccepted(Targets(rows, room), turnOn, transport)
  {
    var devices := Targets(rows, room);
    if |devices| == 0 {
      return 0;
    }
    ok := 0;
    var i := 0;
    while i < |devices|
      invariant 0 <= i <= |devices|
      invariant ok == CountAccepted(devices[..i], turnOn, transport)
    {
      assert devices[..i + 1][..i] == devices[..i];
      if SendControl(devices[i], turnOn, transport) {
        ok := ok + 1;
      }
      i := i + 1;
    }
    assert devices[..i] == devices;
  }

  /** The count never exceeds the number of addressed devices; it is zero when the
      transport refuses everything and equals that number when it accepts
      everything and every addressed device has a URL and a command. */
  lemma {:induction false} CountAcceptedBounds(ds: seq<Device>, turnOn: bool, transport: ControlRequest -> bool)
    ensures (forall r :: !transport(r)) ==> CountAccepted(ds, turnOn, transport) == 0
    ensures (forall r :: transport(r)) &&
            (forall i | 0 <= i < |ds| :: ControlTarget(ds[i], turnOn).Some?)
            ==> CountAccepted(ds, turnOn, transport) == |ds|
  {
    if ds != [] {
      CountAcceptedBounds(ds[..|ds| - 1], turnOn, transport);
    }
  }

  /** A device of another room, or a disabled one, is never addressed by a room
      command; "all" addresses every enabled device. */
  lemma TargetsSelectEnabledRoom(rows: seq<Device>, room: string, d: Device)
    ensures d in Targets(rows, room) ==> d in rows && IsEnabled(d)
    ensures !EqualsIgnoreCaseAscii("all", room) ==> (d in Targets(rows, room) <==> d in rows && IsEnabled(d) && d.room == Some(room))
    ensures EqualsIgnoreCaseAscii("all", room) ==> (d in Targets(rows, room) <==> d in rows && IsEnabled(d))
  {
  }
}
