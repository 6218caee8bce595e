/**
 * `ChatSerializer` writes: `create` builds a chat owned by the requesting user from
 * the validated data; `update` assigns the supplied attributes one by one, saves
 * the whole row, and replaces the participants only when `participant_ids` is given.
 */
module ChatSerializers {
  import opened Wrappers
  import opened ChatModel
  import Text
  import Store

  /** One writable attribute of the validated data, as `setattr` applies it. */
  datatype Assignment = SetTitle(title: string) | SetPrompt(prompt: string) | SetIsActive(isActive: bool)

  /** Validated data: the writable attributes supplied, in order, and `participant_ids` when supplied. */
  datatype ChatData = ChatData(attrs: seq<Assignment>, participantIds: Option<seq<int>>)

  /** `setattr(instance, attr, value)` for one assignment. */
  function Apply(c: Chat, a: Assignment): (r: Chat)
    ensures r == c.(title := r.title, prompt := r.prompt, isActive := r.isActive)
    ensures a.SetTitle? ==> r.title == a.title && r.prompt == c.prompt && r.isActive == c.isActive
    ensures a.SetPrompt? ==> r.prompt == a.prompt && r.title == c.title && r.isActive == c.isActive
    ensures a.SetIsActive? ==> r.isActive == a.isActive && r.title == c.title && r.prompt == c.prompt
  {
    match a
    case SetTitle(t) => c.(title := t)
    case SetPrompt(p) => c.(prompt := p)
    case SetIsActive(b) => c.(isActive := b)
  }

  /** The assignments applied in order: only the three writable columns can change. */
  function ApplyAll(c: Chat, items: seq<Assignment>): (r: Chat)
    ensures r == c.(title := r.title, prompt := r.prompt, isActive := r.isActive)
    decreases |items|
  {
    if items == [] then c else Apply(ApplyAll(c, items[..|items| - 1]), items[|items| - 1])
  }

  /** The title the data supplies (the last one, should it name the attribute twice). */
  function GivenTitle(items: seq<Assignment>): Option<string>
    decreases |items|
  {
    if items == [] then None
    else if items[|items| - 1].SetTitle? then Some(items[|items| - 1].title)
    else GivenTitle(items[..|items| - 1])
  }

  function GivenPrompt(items: seq<Assignment>): Option<string>
    decreases |items|
  {
    if items == [] then None
    else if items[|items| - 1].SetPrompt? then Some(items[|items| - 1].prompt)
    else GivenPrompt(items[..|items| - 1])
  }

  function GivenIsActive(items: seq<Assignment>): Option<bool>
    decreases |items|
  {
    if items == [] then None
    else if items[|items| - 1].SetIsActive? then Some(items[|items| - 1].isActive)
    else GivenIsActive(items[..|items| - 1])
  }

  function OrElse<T>(o: Option<T>, d: T): T
  {
    if o.Some? then o.value else d
  }

  /**
   * Applying the attributes assigns exactly the supplied ones and leaves every other
   * column, the participants and the timestamps as they were.
   */
  lemma {:induction false} ApplyAllAssignsGiven(c: Chat, items: seq<Assignment>)
    ensures ApplyAll(c, items) == c.(title := OrElse(GivenTitle(items), c.title),
                                     prompt := OrElse(GivenPrompt(items), c.prompt),
                                     isActive := OrElse(GivenIsActive(items), c.isActive))
    decreases |items|
  {
    if items != [] {
      ApplyAllAssignsGiven(c, items[..|items| - 1]);
    }
  }

  /** The key `validated_data` holds for one assignment. */
  function KeyOf(a: Assignment): string
  {
    match a
    case SetTitle(_) => "title"
    case SetPrompt(_) => "prompt"
    case SetIsActive(_) => "is_active"
  }

  /** The keys of the validated data: the writable fields supplied, and `participant_ids` when supplied. */
  function Keys(data: ChatData): (k: set<string>)
    ensures "participant_ids" in k <==> data.participantIds.Some?
    ensures "created_by" !in k
    ensures forall i :: 0 <= i < |data.attrs| ==> KeyOf(data.attrs[i]) in k
    ensures forall s :: s in k <==> (s == "participant_ids" && data.participantIds.Some?)
                                    || exists i :: 0 <= i < |data.attrs| && KeyOf(data.attrs[i]) == s
  {
    (set i | 0 <= i < |data.attrs| :: KeyOf(data.attrs[i]))
      + (if data.participantIds.Some? then {"participant_ids"} else {})
  }

  /** A call that passes the same keyword argument twice. */
  datatype CallError = MultipleValues(keyword: string)

  /**
   * The keyword arguments of `create`'s call `Chat.objects.create(created_by=...,
   * **validated_data)` once `participant_ids` is popped: the call fails when the
   * unpacked data already holds `created_by`.
   */
  function CreateCallKeywords(validated: set<string>): (r: Result<set<string>, CallError>)
    ensures r.Failure? <==> "created_by" in validated
    ensures r.Failure? ==> r.error == MultipleValues("created_by")
    ensures r.Success? ==> "created_by" in r.value && "participant_ids" !in r.value
    ensures r.Success? ==> forall k :: k in validated && k != "participant_ids" ==> k in r.value
  {
    var rest := validated - {"participant_ids"};
    if "created_by" in rest then Failure(MultipleValues("created_by"))
    else Success(rest + {"created_by"})
  }

  /** Data straight from validation never holds `created_by`, so `create` alone makes its call. */
  lemma CreateCallOnValidatedData(data: ChatData)
    ensures CreateCallKeywords(Keys(data)).Success?
  {
  }

  /**
   * One error `is_valid()` reports: the title is over its `max_length`, or a
   * character field's value holds a NUL character (DRF's `CharField` always adds
   * `ProhibitNullCharactersValidator`). Its other default validator refuses lone
   * surrogate code points, which a `char` here cannot hold, so that error never
   * arises in the model.
   */
  datatype ValidationError = TitleTooLong | NullCharacter(field: TextField)

  /** The two character fields of the serializer. */
  datatype TextField = TitleField | PromptField

  const NUL: char := 0 as char

  /** `ProhibitNullCharactersValidator` refuses a value holding a NUL. */
  predicate HasNul(s: string)
  {
    NUL in s
  }

  /**
   * One assignment as the serializer field returns it: `title` and `prompt` are
   * character fields, which strip surrounding whitespace (`trim_whitespace`).
   */
  function Trim(a: Assignment): Assignment
  {
    match a
    case SetTitle(t) => SetTitle(Text.Strip(t))
    case SetPrompt(p) => SetPrompt(Text.Strip(p))
    case SetIsActive(_) => a
  }

  /**
   * The errors the field validators report for one value as the field returns it
   * (already stripped); every failing validator is reported.
   */
  function ErrorsOf(a: Assignment): (r: set<ValidationError>)
    ensures TitleTooLong in r <==> a.SetTitle? && !TitleFits(a.title)
    ensures NullCharacter(TitleField) in r <==> a.SetTitle? && HasNul(a.title)
    ensures NullCharacter(PromptField) in r <==> a.SetPrompt? && HasNul(a.prompt)
    ensures r <= {TitleTooLong, NullCharacter(TitleField), NullCharacter(PromptField)}
  {
    match a
    case SetTitle(t) =>
      (if TitleFits(t) then {} else {TitleTooLong}) + (if HasNul(t) then {NullCharacter(TitleField)} else {})
    case SetPrompt(p) => if HasNul(p) then {NullCharacter(PromptField)} else {}
    case SetIsActive(_) => {}
  }

  /** A value no field validator refuses. */
  predicate Accepted(a: Assignment)
  {
    ErrorsOf(a) == {}
  }

  /** The errors of all the supplied attributes together, as the serializer collects them. */
  function AllErrors(items: seq<Assignment>): (r: set<ValidationError>)
    ensures forall e :: e in r <==> exists i :: 0 <= i < |items| && e in ErrorsOf(items[i])
    ensures r == {} <==> forall i :: 0 <= i < |items| ==> Accepted(items[i])
    decreases |items|
  {
    if items == [] then {}
    else
      var init := items[..|items| - 1];
      var r := AllErrors(init) + ErrorsOf(items[|items| - 1]);
      assert forall i :: 0 <= i < |init| ==> init[i] == items[i];
      r
  }

  /**
   * `is_valid()` on the writable attributes: each string value is stripped, and the
   * title's `max_length` and the NUL check run on the stripped value; the data is
   * refused with every error found when any validator fails.
   */
  function Validate(data: ChatData): (r: Result<ChatData, set<ValidationError>>)
    ensures r.Success? <==> forall i :: 0 <= i < |data.attrs| ==> Accepted(Trim(data.attrs[i]))
    ensures r.Failure? ==> r.error != {}
    ensures r.Failure? ==> forall e :: e in r.error <==> exists i :: 0 <= i < |data.attrs| && e in ErrorsOf(Trim(data.attrs[i]))
    ensures r.Success? ==> r.value.participantIds == data.participantIds && |r.value.attrs| == |data.attrs|
    ensures r.Success? ==> forall i :: 0 <= i < |data.attrs| ==>
              KeyOf(r.value.attrs[i]) == KeyOf(data.attrs[i]) && r.value.attrs[i] == Trim(data.attrs[i])
  {
    var values := seq(|data.attrs|, i requires 0 <= i < |data.attrs| => Trim(data.attrs[i]));
    assert forall i :: 0 <= i < |data.attrs| ==> values[i] == Trim(data.attrs[i]);
    var errors := AllErrors(values);
    if errors == {} then Success(ChatData(values, data.participantIds)) else Failure(errors)
  }

  /** Every title the validated data holds fits the column, has no NUL and no surrounding whitespace. */
  lemma ValidatedTitlesFit(data: ChatData)
    requires Validate(data).Success?
    ensures forall i :: 0 <= i < |Validate(data).value.attrs| && Validate(data).value.attrs[i].SetTitle? ==>
              var t := Validate(data).value.attrs[i].title;
              TitleFits(t) && !HasNul(t) && t == Text.Strip(t)
  {
    var v := Validate(data).value.attrs;
    forall i | 0 <= i < |v| && v[i].SetTitle?
      ensures TitleFits(v[i].title) && !HasNul(v[i].title) && v[i].title == Text.Strip(v[i].title)
    {
      assert Accepted(Trim(data.attrs[i]));
      Text.StripIdempotent(data.attrs[i].title);
    }
  }

  /** Validated data validates again to itself: stripping and the bound are settled once. */
  lemma ValidateIdempotent(data: ChatData)
    requires Validate(data).Success?
    ensures Validate(Validate(data).value) == Validate(data)
  {
    var v := Validate(data).value;
    ValidatedTitlesFit(data);
    forall i | 0 <= i < |v.attrs|
      ensures Accepted(Trim(v.attrs[i])) && Trim(v.attrs[i]) == v.attrs[i]
    {
      match data.attrs[i]
      case SetTitle(t) => Text.StripIdempotent(t);
      case SetPrompt(p) => Text.StripIdempotent(p);
      case SetIsActive(_) =>
    }
    assert Validate(v).value.attrs == v.attrs;
  }

  /** The title validation hands on is the stripped form of the last title supplied. */
  lemma {:induction false} GivenTitleOfTrimmed(items: seq<Assignment>, trimmed: seq<Assignment>)
    requires |trimmed| == |items| && forall i :: 0 <= i < |items| ==> trimmed[i] == Trim(items[i])
    ensures GivenTitle(items).None? ==> GivenTitle(trimmed).None?
    ensures GivenTitle(items).Some? ==> GivenTitle(trimmed) == Some(Text.Strip(GivenTitle(items).value))
    decreases |items|
  {
    if items != [] {
      var n := |items| - 1;
      GivenTitleOfTrimmed(items[..n], trimmed[..n]);
    }
  }

  /**
   * Surrounding whitespace does not count against the bound: a title that fits is
   * handed on without a trailing space, and accepted with it unless it holds a NUL.
   */
  lemma PaddedTitleAccepted(t: string)
    requires t != [] && TitleFits(t) && Text.Strip(t) == t
    ensures Trim(SetTitle(t + " ")) == SetTitle(t)
    ensures Accepted(Trim(SetTitle(t + " "))) <==> !HasNul(t)
  {
    assert !Text.IsSpace(t[0]) && !Text.IsSpace(t[|t| - 1]);
    Text.StripTrailingSpace(t);
  }

  /** A supplied title is one of the assignments. */
  lemma {:induction false} GivenTitleIsAssigned(items: seq<Assignment>)
    requires GivenTitle(items).Some?
    ensures exists i :: 0 <= i < |items| && items[i] == SetTitle(GivenTitle(items).value)
    decreases |items|
  {
    var n := |items| - 1;
    if !items[n].SetTitle? {
      GivenTitleIsAssigned(items[..n]);
      var i :| 0 <= i < n && items[..n][i] == SetTitle(GivenTitle(items[..n]).value);
      assert items[i] == items[..n][i];
    }
  }

  /**
   * After validation the title that `create` stores fits the column: the stripped
   * form of the title supplied last, or the empty default.
   */
  lemma ValidatedTitleFits(data: ChatData)
    requires Validate(data).Success?
    ensures var stored := OrElse(GivenTitle(Validate(data).value.attrs), DefaultTitle);
            TitleFits(stored)
            && stored == (if GivenTitle(data.attrs).Some? then Text.Strip(GivenTitle(data.attrs).value) else DefaultTitle)
  {
    var v := Validate(data).value.attrs;
    GivenTitleOfTrimmed(data.attrs, v);
    if GivenTitle(v).Some? {
      GivenTitleIsAssigned(v);
      ValidatedTitlesFit(data);
    }
  }

  function IdSet(ids: seq<int>): (s: set<UserId>)
    ensures forall u :: u in s <==> u in ids
  {
    set u | u in ids
  }

  /**
   * `create(validated_data)`: `participant_ids` is popped (default empty); the chat
   * is created with `created_by` the requesting user and the supplied columns over
   * the field defaults; then, if the ids are non-empty, `participants.set(ids)`,
   * which fails as a whole when an id names no user (the chat stays, with no
   * participants).
   */
  method Create(db: Store.Database, data: ChatData, requester: UserId)
    returns (c: Chat, r: Result<(), Store.DbError>)
    requires db.Valid() && requester in db.users
    modifies db
    ensures db.Valid()
    ensures c.id !in old(db.chats) && db.chats == old(db.chats)[c.id := c]
    ensures c.createdBy == requester
    ensures c.title == OrElse(GivenTitle(data.attrs), DefaultTitle)
    ensures c.prompt == OrElse(GivenPrompt(data.attrs), DefaultPrompt)
    ensures c.isActive == OrElse(GivenIsActive(data.attrs), DefaultIsActive)
    ensures c.createdAt == c.updatedAt == db.clock > old(db.clock)
    ensures var ids := OrElse(data.participantIds, []);
            (r.Success? <==> ids == [] || IdSet(ids) <= old(db.users))
            && (r.Success? ==> c.participants == IdSet(ids))
            && (r.Failure? ==> c.participants == {})
    ensures db.users == old(db.users) && db.messages == old(db.messages) && db.files == old(db.files)
  {
    var participantIds := OrElse(data.participantIds, []);
    var fields := ApplyAll(Chat(0, DefaultTitle, DefaultPrompt, DefaultIsActive, requester, {}, 0, 0), data.attrs);
    ApplyAllAssignsGiven(Chat(0, DefaultTitle, DefaultPrompt, DefaultIsActive, requester, {}, 0, 0), data.attrs);
    c := db.CreateChat(fields.title, fields.prompt, fields.isActive, requester);
    r := Success(());
    if participantIds != [] {
      r := db.SetParticipants(c.id, IdSet(participantIds));
      c := db.chats[c.id];
    } else {
      assert IdSet(participantIds) == {};
    }
  }

  /**
   * `update(instance, validated_data)`: `participant_ids` is popped (default none);
   * every other supplied attribute is assigned in turn; the full `save()` writes the
   * row and refreshes `updated_at`; then, only if `participant_ids` was supplied,
   * the participants become exactly those ids, even when the list is empty.
   */
  method Update(db: Store.Database, instance: Chat, data: ChatData)
    returns (c: Chat, r: Result<(), Store.DbError>)
    requires db.Valid() && instance.id in db.chats && db.chats[instance.id] == instance
    modifies db
    ensures db.Valid()
    ensures db.chats == old(db.chats)[instance.id := c]
    ensures c.id == instance.id && c.createdBy == instance.createdBy && c.createdAt == instance.createdAt
    ensures c.title == OrElse(GivenTitle(data.attrs), instance.title)
    ensures c.prompt == OrElse(GivenPrompt(data.attrs), instance.prompt)
    ensures c.isActive == OrElse(GivenIsActive(data.attrs), instance.isActive)
    ensures c.updatedAt == db.clock > instance.updatedAt
    ensures data.participantIds.None? ==> r.Success? && c.participants == instance.participants
    ensures data.participantIds.Some? ==>
              (r.Success? <==> IdSet(data.participantIds.value) <= old(db.users))
              && (r.Success? ==> c.participants == IdSet(data.participantIds.value))
              && (r.Failure? ==> c.participants == instance.participants)
    ensures db.users == old(db.users) && db.messages == old(db.messages) && db.files == old(db.files)
  {
    var participantIds := data.participantIds;
    var items := data.attrs;
    var inst := instance;
    var i := 0;
    while i < |items|
      invariant 0 <= i <= |items|
      invariant inst == ApplyAll(instance, items[..i])
    {
      match items[i] {
        case SetTitle(t) => inst := inst.(title := t);
        case SetPrompt(p) => inst := inst.(prompt := p);
        case SetIsActive(b) => inst := inst.(isActive := b);
      }
      assert items[..i + 1][..i] == items[..i];
      i := i + 1;
    }
    assert items[..i] == items;
    ApplyAllAssignsGiven(instance, items);
    db.SaveChat(inst);
    c := db.chats[inst.id];
    r := Success(());
    if participantIds.Some? {
      r := db.SetParticipants(c.id, IdSet(participantIds.value));
      c := db.chats[c.id];
    }
  }
}
