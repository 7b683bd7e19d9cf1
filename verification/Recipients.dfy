/** Resolving a room message's recipients (bot_rooms.py): the bridge is the only writer of
    `@handle` tokens, so every mention in the text it sends must resolve. */
module Recipients {
  import opened Wrappers
  import opened PyText
  import opened Mentions

  datatype Member = Member(memberId: Option<string>, handle: Option<string>, profile: Option<string>, available: bool)

  datatype Error = RecipientUnknown | RecipientAmbiguous | RecipientUnavailable
  datatype Result<+T> = Ok(value: T) | Err(error: Error)

  const RESERVED: set<string> := {"all", "everyone"}

  function Value(field: Option<string>): string {
    if field.Some? then field.value else ""
  }

  predicate KeyMatches(fold: string -> string, key: string, field: Option<string>) {
    Strip(Value(field)) != "" && fold(Strip(Value(field))) == key
  }

  predicate Answers(fold: string -> string, member: Member, key: string) {
    KeyMatches(fold, key, member.memberId) || KeyMatches(fold, key, member.handle) || KeyMatches(fold, key, member.profile)
  }

  /** What tells two matches apart: the member id, else the handle, else the row itself. */
  datatype Identity = Named(name: string) | Nameless(row: nat)

  function IdentityOf(members: seq<Member>, i: nat): Identity
    requires i < |members|
  {
    if Value(members[i].memberId) != "" then Named(members[i].memberId.value)
    else if Value(members[i].handle) != "" then Named(members[i].handle.value)
    else Nameless(i)
  }

  function HandleOf(member: Member): string {
    Strip(if Value(member.handle) != "" then member.handle.value else Value(member.profile))
  }

  function KeyOf(fold: string -> string, token: string): string {
    fold(Strip(token))
  }

  /** The test a token's key makes of a member. */
  function AnswersTo(fold: string -> string, token: string): Member -> bool {
    m => Answers(fold, m, KeyOf(fold, token))
  }

  datatype Match = Match(identity: Identity, member: Member)

  /** The first `k` rows that answer, in row order. */
  function Matching(answers: Member -> bool, members: seq<Member>, k: nat): seq<Match>
    requires k <= |members|
  {
    if k == 0 then [] else
      var earlier := Matching(answers, members, k - 1);
      if answers(members[k - 1]) then earlier + [Match(IdentityOf(members, k - 1), members[k - 1])] else earlier
  }

  /** Matches of one identity are one member, and its last row is the one kept. */
  function Settle(matches: seq<Match>): Result<Member> {
    if matches == [] then Err(RecipientUnknown)
    else if exists i :: 0 <= i < |matches| && matches[i].identity != matches[|matches| - 1].identity then Err(RecipientAmbiguous)
    else Ok(matches[|matches| - 1].member)
  }

  function Resolve(fold: string -> string, members: seq<Member>, token: string): Result<Member> {
    var key := KeyOf(fold, token);
    if key == "" then Err(RecipientUnknown) else Settle(Matching(AnswersTo(fold, token), members, |members|))
  }

  method ResolveMemberToken(fold: string -> string, members: seq<Member>, token: string) returns (r: Result<Member>)
    ensures r == Resolve(fold, members, token)
  {
    var key := KeyOf(fold, token);
    if key == "" {
      return Err(RecipientUnknown);
    }
    var matches := Matching(AnswersTo(fold, token), members, |members|);
    r := SettleById(matches);
  }

  method SettleById(matches: seq<Match>) returns (r: Result<Member>)
    ensures r == Settle(matches)
  {
    var byId: map<Identity, Member> := map[];
    for k := 0 to |matches|
      invariant forall id :: id in byId <==> exists i :: 0 <= i < k && matches[i].identity == id
      invariant k > 0 ==> matches[k - 1].identity in byId && byId[matches[k - 1].identity] == matches[k - 1].member
    {
      byId := byId[matches[k].identity := matches[k].member];
    }
    if |matches| == 0 {
      return Err(RecipientUnknown);
    }
    var last := matches[|matches| - 1];
    if byId.Keys != {last.identity} {
      ghost var other :| other in byId && other != last.identity;
      return Err(RecipientAmbiguous);
    }
    forall i | 0 <= i < |matches|
      ensures matches[i].identity == last.identity
    {
      assert matches[i].identity in byId.Keys;
    }
    return Ok(byId[last.identity]);
  }

  lemma {:induction false} MatchingExact(answers: Member -> bool, members: seq<Member>, k: nat)
    requires k <= |members|
    ensures forall i :: 0 <= i < k && answers(members[i]) ==> Match(IdentityOf(members, i), members[i]) in Matching(answers, members, k)
    ensures forall m :: m in Matching(answers, members, k) ==>
              exists i :: 0 <= i < k && answers(members[i]) && m == Match(IdentityOf(members, i), members[i])
  {
    if k > 0 {
      MatchingExact(answers, members, k - 1);
    }
  }

  /** The last match is of the last row that answers. */
  lemma {:induction false} LastMatch(answers: Member -> bool, members: seq<Member>, k: nat) returns (i: nat)
    requires k <= |members| && Matching(answers, members, k) != []
    ensures i < k && answers(members[i]) && forall j :: i < j < k ==> !answers(members[j])
    ensures Matching(answers, members, k)[|Matching(answers, members, k)| - 1] == Match(IdentityOf(members, i), members[i])
  {
    if answers(members[k - 1]) {
      i := k - 1;
    } else {
      i := LastMatch(answers, members, k - 1);
    }
  }

  /** Row `i` answers, no later row does, and every row that does is the same member. */
  ghost predicate OneMember(answers: Member -> bool, members: seq<Member>, i: nat) {
    && i < |members| && answers(members[i])
    && forall j :: 0 <= j < |members| && answers(members[j]) ==> j <= i && IdentityOf(members, j) == IdentityOf(members, i)
  }

  lemma SettleIsExact(answers: Member -> bool, members: seq<Member>)
    ensures var r := Settle(Matching(answers, members, |members|));
            && (r.Ok? ==> exists i: nat :: OneMember(answers, members, i) && members[i] == r.value)
            && (r == Err(RecipientUnknown) <==> forall j :: 0 <= j < |members| ==> !answers(members[j]))
            && (r == Err(RecipientAmbiguous) ==> !exists i: nat :: OneMember(answers, members, i))
  {
    var matches := Matching(answers, members, |members|);
    MatchingExact(answers, members, |members|);
    if matches != [] {
      var last := matches[|matches| - 1];
      var i := LastMatch(answers, members, |members|);
      if Settle(matches).Ok? {
        assert OneMember(answers, members, i);
      } else {
        var k :| 0 <= k < |matches| && matches[k].identity != last.identity;
        assert matches[k] in matches;
      }
    }
  }

  /** Id, handle or profile of the member spell the token, blanks around either aside. */
  predicate IsNamedBy(fold: string -> string, m: Member, token: string) {
    exists field | field in {m.memberId, m.handle, m.profile} ::
      field.Some? && Strip(field.value) != "" && fold(Strip(field.value)) == fold(Strip(token))
  }

  /** A token resolves to the last row it names if all it names are one member, and to none
      otherwise; it is unknown exactly when it is blank or names no row. */
  lemma ResolveIsExact(fold: string -> string, members: seq<Member>, token: string)
    ensures forall m :: AnswersTo(fold, token)(m) <==> IsNamedBy(fold, m, token)
    ensures KeyOf(fold, token) == fold(Strip(token))
    ensures var r, answers := Resolve(fold, members, token), AnswersTo(fold, token);
            && (r.Ok? ==> exists i: nat :: OneMember(answers, members, i) && members[i] == r.value)
            && (r.Ok? <==> KeyOf(fold, token) != "" && exists i: nat :: OneMember(answers, members, i))
            && (r == Err(RecipientUnknown) <==> KeyOf(fold, token) == "" || forall j :: 0 <= j < |members| ==> !answers(members[j]))
            && r != Err(RecipientUnavailable)
  {
    SettleIsExact(AnswersTo(fold, token), members);
    forall m ensures AnswersTo(fold, token)(m) <==> IsNamedBy(fold, m, token) {
      AnswersIff(fold, m, token);
    }
  }

  lemma AnswersIff(fold: string -> string, m: Member, token: string)
    ensures Answers(fold, m, KeyOf(fold, token)) <==> IsNamedBy(fold, m, token)
  {
    var named := {m.memberId, m.handle, m.profile};
    assert m.memberId in named && m.handle in named && m.profile in named;
    forall field: Option<string>
      ensures KeyMatches(fold, KeyOf(fold, token), field) <==>
                field.Some? && Strip(field.value) != "" && fold(Strip(field.value)) == fold(Strip(token))
    {
    }
  }

  function RequireAvailable(r: Result<Member>): Result<Member> {
    if r.Err? then r
    else if !r.value.available then Err(RecipientUnavailable)
    else if HandleOf(r.value) == "" then Err(RecipientUnknown)
    else r
  }

  // --------------------------------------------------------------- whole texts

  predicate Reserved(fold: string -> string, handle: string) {
    fold(handle) in RESERVED
  }

  /** Looks tokens up in order, passing over the skipped ones, up to the first error. */
  function ResolveAll(lookup: string -> Result<Member>, skip: string -> bool, tokens: seq<string>): Result<seq<Member>> {
    if tokens == [] then Ok([])
    else if skip(tokens[0]) then ResolveAll(lookup, skip, tokens[1..])
    else
      var first := lookup(tokens[0]);
      if first.Err? then Err(first.error)
      else Prepend(first.value, ResolveAll(lookup, skip, tokens[1..]))
  }

  function Prepend(m: Member, rest: Result<seq<Member>>): Result<seq<Member>> {
    if rest.Err? then rest else Ok([m] + rest.value)
  }

  function HandlesOf(selected: seq<Member>): seq<string> {
    if selected == [] then [] else [HandleOf(selected[0])] + HandlesOf(selected[1..])
  }

  /** `lookup` resolves one token to an available member; `reserved` are the handles that
      stand for everyone. */
  function ResolveSendText(fold: string -> string, lookup: string -> Result<Member>, reserved: string -> bool,
                           text: string, recipients: seq<string>): Result<string>
  {
    var selected := if recipients != [] then ResolveAll(lookup, NoneSkipped, recipients) else ResolveAll(lookup, reserved, Scan(fold, text));
    if selected.Err? then Err(selected.error)
    else if recipients == [] && selected.value == [] then Ok(text)
    else CheckMentions(lookup, reserved, Scan(fold, Addressed(fold, text, selected.value)), Addressed(fold, text, selected.value))
  }

  predicate NoneSkipped(token: string) { false }

  /** The text with a mention of every selected member. */
  function Addressed(fold: string -> string, text: string, selected: seq<Member>): string {
    EnsureMentionText(fold, text, Distinct(fold, HandlesOf(selected), {}))
  }

  function CheckMentions(lookup: string -> Result<Member>, reserved: string -> bool, mentions: seq<string>, text: string): Result<string> {
    var check := ResolveAll(lookup, reserved, mentions);
    if check.Err? then Err(check.error) else Ok(text)
  }

  /** The live members' lookup. */
  function Lookup(fold: string -> string, members: seq<Member>, token: string): Result<Member> {
    RequireAvailable(Resolve(fold, members, token))
  }

  method ResolveTokens(lookup: string -> Result<Member>, skip: string -> bool, tokens: seq<string>) returns (r: Result<seq<Member>>)
    ensures r == ResolveAll(lookup, skip, tokens)
  {
    var selected: seq<Member> := [];
    PrependNothing(ResolveAll(lookup, skip, tokens));
    assert tokens[0..] == tokens;
    for k := 0 to |tokens|
      invariant ResolveAll(lookup, skip, tokens) == PrependAll(selected, ResolveAll(lookup, skip, tokens[k..]))
    {
      ResolveAllFront(lookup, skip, tokens[k..]);
      assert tokens[k..][1..] == tokens[k + 1..];
      if skip(tokens[k]) {
        continue;
      }
      var member := lookup(tokens[k]);
      if member.Err? {
        return Err(member.error);
      }
      PrependAssociates(selected, member.value, ResolveAll(lookup, skip, tokens[k + 1..]));
      selected := selected + [member.value];
    }
    assert tokens[|tokens|..] == [] && selected + [] == selected;
    return Ok(selected);
  }

  lemma PrependNothing(rest: Result<seq<Member>>)
    ensures PrependAll([], rest) == rest
  {
    if rest.Ok? {
      assert [] + rest.value == rest.value;
    }
  }

  lemma PrependAssociates(selected: seq<Member>, m: Member, rest: Result<seq<Member>>)
    ensures PrependAll(selected, Prepend(m, rest)) == PrependAll(selected + [m], rest)
  {
    if rest.Ok? {
      assert selected + ([m] + rest.value) == (selected + [m]) + rest.value;
    }
  }

  ghost function PrependAll(selected: seq<Member>, rest: Result<seq<Member>>): Result<seq<Member>> {
    if rest.Err? then rest else Ok(selected + rest.value)
  }

  lemma ResolveAllFront(lookup: string -> Result<Member>, skip: string -> bool, tokens: seq<string>)
    requires tokens != []
    ensures ResolveAll(lookup, skip, tokens)
         == if skip(tokens[0]) then ResolveAll(lookup, skip, tokens[1..])
            else if lookup(tokens[0]).Err? then Err(lookup(tokens[0]).error)
            else Prepend(lookup(tokens[0]).value, ResolveAll(lookup, skip, tokens[1..]))
  {
  }

  method ResolveSend(fold: string -> string, lookup: string -> Result<Member>, reserved: string -> bool,
                     text: string, recipients: seq<string>) returns (r: Result<string>)
    ensures r == ResolveSendText(fold, lookup, reserved, text, recipients)
  {
    var selected: Result<seq<Member>>;
    if recipients != [] {
      selected := ResolveTokens(lookup, NoneSkipped, recipients);
    } else {
      var mentioned := MentionHandlesInText(fold, text);
      selected := ResolveTokens(lookup, reserved, mentioned);
    }
    if selected.Err? {
      return Err(selected.error);
    }
    if recipients == [] && selected.value == [] {
      return Ok(text);
    }
    var handles := DistinctHandles(fold, HandlesOf(selected.value));
    var resolved := EnsureMentionText(fold, text, handles);
    var leftover := MentionHandlesInText(fold, resolved);
    var check := ResolveTokens(lookup, reserved, leftover);
    return if check.Err? then Err(check.error) else Ok(resolved);
  }

  method DistinctHandles(fold: string -> string, all: seq<string>) returns (handles: seq<string>)
    ensures handles == Distinct(fold, all, {})
  {
    handles := [];
    var seen: set<string> := {};
    for k := 0 to |all|
      invariant handles + Distinct(fold, all[k..], seen) == Distinct(fold, all, {})
    {
      assert all[k..][1..] == all[k + 1..];
      if fold(all[k]) in seen {
        continue;
      }
      seen := seen + {fold(all[k])};
      handles := handles + [all[k]];
    }
  }

  lemma {:induction false} ResolveAllHas(lookup: string -> Result<Member>, skip: string -> bool, tokens: seq<string>, t: string)
    requires ResolveAll(lookup, skip, tokens).Ok? && t in tokens && !skip(t)
    ensures lookup(t).Ok? && lookup(t).value in ResolveAll(lookup, skip, tokens).value
  {
    if t != tokens[0] {
      ResolveAllHas(lookup, skip, tokens[1..], t);
    }
  }

  lemma {:induction false} ResolveAllFrom(lookup: string -> Result<Member>, skip: string -> bool, tokens: seq<string>, m: Member)
    requires ResolveAll(lookup, skip, tokens).Ok? && m in ResolveAll(lookup, skip, tokens).value
    ensures exists t :: t in tokens && lookup(t) == Ok(m)
  {
    if skip(tokens[0]) || m != lookup(tokens[0]).value {
      ResolveAllFrom(lookup, skip, tokens[1..], m);
      var t :| t in tokens[1..] && lookup(t) == Ok(m);
      assert t in tokens;
    } else {
      assert tokens[0] in tokens;
    }
  }

  ghost predicate FindsMember(answers: Member -> bool, members: seq<Member>, i: nat) {
    OneMember(answers, members, i) && members[i].available && HandleOf(members[i]) != ""
  }

  lemma AvailableIsExact(answers: Member -> bool, members: seq<Member>, named: bool, r: Result<Member>)
    requires r.Ok? ==> exists i: nat :: OneMember(answers, members, i) && members[i] == r.value
    requires r.Ok? <==> named && exists i: nat :: OneMember(answers, members, i)
    ensures RequireAvailable(r).Ok? <==> named && exists i: nat :: FindsMember(answers, members, i)
    ensures RequireAvailable(r).Ok? ==> exists i: nat :: OneMember(answers, members, i) && members[i] == RequireAvailable(r).value
  {
    if r.Ok? {
      var i: nat :| OneMember(answers, members, i) && members[i] == r.value;
      forall j: nat | OneMember(answers, members, j) ensures j == i {
        assert j <= i && i <= j;
      }
      assert FindsMember(answers, members, i) <==> r.value.available && HandleOf(r.value) != "";
    }
  }

  /** A lookup succeeds exactly if one listed member answers to the token, is available and has a
      handle, and then it finds that member. */
  lemma LookupFindsMember(fold: string -> string, members: seq<Member>, token: string)
    ensures Lookup(fold, members, token).Ok? <==>
              KeyOf(fold, token) != "" && exists i: nat :: FindsMember(AnswersTo(fold, token), members, i)
    ensures Lookup(fold, members, token).Ok? ==> exists i: nat ::
              OneMember(AnswersTo(fold, token), members, i) && members[i] == Lookup(fold, members, token).value
  {
    ResolveIsExact(fold, members, token);
    AvailableIsExact(AnswersTo(fold, token), members, KeyOf(fold, token) != "", Resolve(fold, members, token));
  }

  /** A text that is returned mentions only reserved handles and handles of resolvable,
      available members. */
  lemma EveryMentionResolves(fold: string -> string, lookup: string -> Result<Member>, reserved: string -> bool,
                             text: string, recipients: seq<string>, h: string)
    requires ResolveSendText(fold, lookup, reserved, text, recipients).Ok?
    requires h in Scan(fold, ResolveSendText(fold, lookup, reserved, text, recipients).value)
    ensures reserved(h) || lookup(h).Ok?
  {
    if !reserved(h) {
      ResolveAllHas(lookup, reserved, Scan(fold, ResolveSendText(fold, lookup, reserved, text, recipients).value), h);
    }
  }

  /** Token `i` is the first one not passed over that does not resolve. */
  ghost predicate FirstFailure(lookup: string -> Result<Member>, skip: string -> bool, tokens: seq<string>, i: nat) {
    && i < |tokens| && !skip(tokens[i]) && lookup(tokens[i]).Err?
    && forall j :: 0 <= j < i ==> skip(tokens[j]) || lookup(tokens[j]).Ok?
  }

  ghost predicate AllResolve(lookup: string -> Result<Member>, skip: string -> bool, tokens: seq<string>) {
    forall j :: 0 <= j < |tokens| ==> skip(tokens[j]) || lookup(tokens[j]).Ok?
  }

  /** Resolving tokens fails exactly with the first one that fails. */
  lemma {:induction false} ResolveAllIff(lookup: string -> Result<Member>, skip: string -> bool, tokens: seq<string>)
    ensures ResolveAll(lookup, skip, tokens).Ok? <==> AllResolve(lookup, skip, tokens)
    ensures forall i: nat :: FirstFailure(lookup, skip, tokens, i) ==> ResolveAll(lookup, skip, tokens) == Err(lookup(tokens[i]).error)
  {
    if tokens != [] {
      var rest := tokens[1..];
      ResolveAllIff(lookup, skip, rest);
      assert forall j :: 0 <= j < |rest| ==> rest[j] == tokens[j + 1];
      if (skip(tokens[0]) || lookup(tokens[0]).Ok?) && AllResolve(lookup, skip, rest) {
        forall j | 0 < j < |tokens| ensures skip(tokens[j]) || lookup(tokens[j]).Ok? {
          assert tokens[j] == rest[j - 1];
        }
      }
      forall i: nat | FirstFailure(lookup, skip, tokens, i)
        ensures ResolveAll(lookup, skip, tokens) == Err(lookup(tokens[i]).error)
      {
        if i > 0 {
          assert skip(tokens[0]) || lookup(tokens[0]).Ok?;
          assert FirstFailure(lookup, skip, rest, i - 1);
        }
      }
    }
  }

  /** A message goes out exactly if everyone it is meant for resolves (the recipients given, or else
      the unreserved mentions) and so does every unreserved mention of what would be sent. */
  lemma SendsIff(fold: string -> string, lookup: string -> Result<Member>, reserved: string -> bool, text: string, recipients: seq<string>)
    ensures var chosen := if recipients != [] then recipients else Scan(fold, text);
            var skip := if recipients != [] then NoneSkipped else reserved;
            var selected := ResolveAll(lookup, skip, chosen);
            ResolveSendText(fold, lookup, reserved, text, recipients).Ok? <==>
              && AllResolve(lookup, skip, chosen) && selected.Ok?
              && AllResolve(lookup, reserved, Scan(fold, Addressed(fold, text, selected.value)))
  {
    var chosen := if recipients != [] then recipients else Scan(fold, text);
    var skip := if recipients != [] then NoneSkipped else reserved;
    ResolveAllIff(lookup, skip, chosen);
    if ResolveAll(lookup, skip, chosen).Ok? {
      var sent := Addressed(fold, text, ResolveAll(lookup, skip, chosen).value);
      ResolveAllIff(lookup, reserved, Scan(fold, sent));
      if recipients == [] && ResolveAll(lookup, skip, chosen).value == [] {
        assert sent == text;
      }
    }
  }

  ghost predicate IsHandle(lookup: string -> Result<Member>, h: string) {
    exists t :: lookup(t).Ok? && HandleOf(lookup(t).value) == h
  }

  lemma SelectedHandles(lookup: string -> Result<Member>, skip: string -> bool, tokens: seq<string>, h: string)
    requires ResolveAll(lookup, skip, tokens).Ok? && h in HandlesOf(ResolveAll(lookup, skip, tokens).value)
    ensures IsHandle(lookup, h)
  {
    var selected := ResolveAll(lookup, skip, tokens).value;
    HandlesFrom(selected);
    var m :| m in selected && HandleOf(m) == h;
    ResolveAllFrom(lookup, skip, tokens, m);
  }

  lemma SentText(fold: string -> string, lookup: string -> Result<Member>, reserved: string -> bool, text: string,
                 recipients: seq<string>, sent: string) returns (skip: string -> bool, chosen: seq<string>)
    requires ResolveSendText(fold, lookup, reserved, text, recipients) == Ok(sent)
    ensures ResolveAll(lookup, skip, chosen).Ok?
    ensures sent == text || sent == Addressed(fold, text, ResolveAll(lookup, skip, chosen).value)
  {
    chosen := if recipients != [] then recipients else Scan(fold, text);
    skip := if recipients != [] then NoneSkipped else reserved;
  }

  ghost predicate NamedAhead(fold: string -> string, lookup: string -> Result<Member>, text: string, sent: string, names: seq<string>) {
    && PrintedOnto(text, sent, names)
    && forall h :: h in names ==> fold(h) !in Folds(fold, Scan(fold, text)) && IsHandle(lookup, h)
  }

  /** What goes out is the draft, or the handles of members it does not mention and then the stripped draft. */
  lemma SentTextKeepsDraft(fold: string -> string, lookup: string -> Result<Member>, reserved: string -> bool,
                           text: string, recipients: seq<string>, sent: string) returns (names: seq<string>)
    requires ResolveSendText(fold, lookup, reserved, text, recipients) == Ok(sent)
    ensures NamedAhead(fold, lookup, text, sent, names)
  {
    var skip, chosen := SentText(fold, lookup, reserved, text, recipients, sent);
    names := NamesAhead(fold, lookup, skip, chosen, text, sent);
  }

  lemma NamesAhead(fold: string -> string, lookup: string -> Result<Member>, skip: string -> bool, chosen: seq<string>,
                   text: string, sent: string) returns (names: seq<string>)
    requires ResolveAll(lookup, skip, chosen).Ok?
    requires sent == text || sent == Addressed(fold, text, ResolveAll(lookup, skip, chosen).value)
    ensures NamedAhead(fold, lookup, text, sent, names)
  {
    names := [];
    if sent != text {
      var handles := HandlesOf(ResolveAll(lookup, skip, chosen).value);
      names := DraftIsKept(fold, text, Distinct(fold, handles, {}));
      DistinctFrom(fold, handles, {});
      forall h | h in names ensures IsHandle(lookup, h) {
        SelectedHandles(lookup, skip, chosen, h);
      }
    }
  }

  lemma HandlesFrom(selected: seq<Member>)
    ensures forall h :: h in HandlesOf(selected) <==> exists m :: m in selected && HandleOf(m) == h
  {
    if selected != [] {
      HandlesFrom(selected[1..]);
      assert forall m :: m in selected <==> m == selected[0] || m in selected[1..];
    }
  }

  lemma DistinctFrom(fold: string -> string, handles: seq<string>, seen: set<string>)
    ensures forall h :: h in Distinct(fold, handles, seen) ==> h in handles
  {
  }

  /** Where member handles are handle-shaped, a text that is returned for recipients
      mentions every one of them, each an available member, on top of what it mentioned. */
  lemma EveryRecipientMentioned(fold: string -> string, lookup: string -> Result<Member>, reserved: string -> bool,
                                text: string, recipients: seq<string>, r: string)
    requires r in recipients && ResolveSendText(fold, lookup, reserved, text, recipients).Ok?
    requires forall t :: lookup(t).Ok? ==> HandleShaped(HandleOf(lookup(t).value))
    ensures lookup(r).Ok?
    ensures var mentions := Folds(fold, Scan(fold, ResolveSendText(fold, lookup, reserved, text, recipients).value));
            Folds(fold, Scan(fold, text)) <= mentions && fold(HandleOf(lookup(r).value)) in mentions
  {
    var selected := ResolveAll(lookup, NoneSkipped, recipients).value;
    ResolveAllHas(lookup, NoneSkipped, recipients, r);
    var handles := HandlesOf(selected);
    HandlesFrom(selected);
    forall h | h in handles
      ensures HandleShaped(h)
    {
      var m :| m in selected && HandleOf(m) == h;
      ResolveAllFrom(lookup, NoneSkipped, recipients, m);
    }
    DistinctFolds(fold, handles, {});
    DistinctFrom(fold, handles, {});
    PrintedMentionsAll(fold, text, Distinct(fold, handles, {}));
    InFolds(fold, handles, HandleOf(lookup(r).value));
  }

  function LookupIn(fold: string -> string, members: seq<Member>): string -> Result<Member> {
    token => Lookup(fold, members, token)
  }

  function ReservedBy(fold: string -> string): string -> bool {
    handle => Reserved(fold, handle)
  }

  /** For a room's members: every mention in a text that goes out is reserved, or names exactly
      one listed member, who is available. */
  lemma SentTextNamesMembers(fold: string -> string, members: seq<Member>, text: string, recipients: seq<string>, h: string)
    requires ResolveSendText(fold, LookupIn(fold, members), ReservedBy(fold), text, recipients).Ok?
    requires h in Scan(fold, ResolveSendText(fold, LookupIn(fold, members), ReservedBy(fold), text, recipients).value)
    ensures || fold(h) in {"all", "everyone"}
            || exists i: nat :: FindsMember(AnswersTo(fold, h), members, i)
  {
    EveryMentionResolves(fold, LookupIn(fold, members), ReservedBy(fold), text, recipients, h);
    if !Reserved(fold, h) {
      LookupFindsMember(fold, members, h);
    }
  }
}
