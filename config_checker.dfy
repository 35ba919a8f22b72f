/** config_checker.py: the table-driven type check of the bot's configuration, raising the first
    error found. */
module ConfigChecker {
  import opened Wrappers
  import opened Json

  /** The exceptions `check` raises: ValueError for a missing field, TypeError for a mistyped one. */
  datatype ConfigError =
    | MissingField(name: string)
    | WrongType(name: string, found: PyType)
    | WrongItemType(name: string, found: PyType)
    | NotIterable(name: string)
    | TierKeyNotStr(found: PyType)
    | MissingTierField(field: string)
    | WrongTierFieldType(field: string, found: PyType)
    | TierEntryTypeError(field: string)

  /** A row of the table: a field name, optionally with the `.list_items` suffix, and the types it
      may have. */
  datatype Requirement = Requirement(field: string, allowed: set<PyType>)

  const ListItemsSuffix: string := ".list_items"

  /** The table, written in two halves so that the verifier can look up its rows. */
  const StronglyRequiredFields: seq<Requirement> := AccountAndChannelFields + RoleAndTimingFields

  const AccountAndChannelFields: seq<Requirement> := [
    Requirement("token", {Str}),
    Requirement("is_production", {Bool}),
    Requirement("lounge", {Str}),
    Requirement("lounge_description", {Str}),
    Requirement("guild_id", {Int}),
    Requirement("queue_join_channel", {Int}),
    Requirement("queue_sub_channel", {Int}),
    Requirement("queue_list_channel", {Int}),
    Requirement("queue_history_channel", {Int}),
    Requirement("queue_general_channel", {Int}),
    Requirement("queue_schedule_channel", {Int, NoneType}),
    Requirement("admin_roles", {List}),
    Requirement("admin_roles.list_items", {Int}),
    Requirement("helper_staff_roles", {List}),
    Requirement("helper_staff_roles.list_items", {Int}),
    Requirement("members_for_channels", {List}),
    Requirement("members_for_channels.list_items", {Int, Bool}),
    Requirement("roles_for_channels", {List}),
    Requirement("roles_for_channels.list_items", {Int})
  ]

  const RoleAndTimingFields: seq<Requirement> := [
    Requirement("PLACEMENT_PLAYER_MMR", {Int}),
    Requirement("placement_role_id", {Int}),
    Requirement("frequently_tagged_role_id", {Int}),
    Requirement("restricted_role_id", {Int}),
    Requirement("muted_role_id", {Int}),
    Requirement("queue_messages", {Bool}),
    Requirement("sec_between_queue_msgs", {Int}),
    Requirement("username", {Str}),
    Requirement("password", {Str}),
    Requirement("url", {Str}),
    Requirement("track_type", {Str}),
    Requirement("FIRST_EVENT_TIME", {Int}),
    Requirement("FIRST_EVENT_TIME_DESCRIPTION", {Str}),
    Requirement("FORCED_FORMAT_ORDER", {List}),
    Requirement("FORCED_FORMAT_ORDER_OFFSET", {Int}),
    Requirement("FORCED_FORMAT_HOURLY_OFFSET", {Int}),
    Requirement("FORCED_FORMAT_AUTOSCHEDULE_AMOUNT", {Int}),
    Requirement("QUEUES_BETWEEN_FORCED_FORMAT_QUEUE", {Int, NoneType}),
    Requirement("JOINING_TIME", {Int}),
    Requirement("QUEUE_OPEN_TIME", {Int}),
    Requirement("DISPLAY_OFFSET_MINUTES", {Int}),
    Requirement("EXTENSION_TIME", {Int}),
    Requirement("ROOM_JOIN_PENALTY_TIME", {Int}),
    Requirement("MOGI_LIFETIME", {Int}),
    Requirement("SUB_RANGE_MMR_ALLOWANCE", {Int}),
    Requirement("SUB_MESSAGE_LIFETIME_SECONDS", {Int}),
    Requirement("ROOM_MMR_THRESHOLD", {Int}),
    Requirement("MATCHMAKING_BOTTOM_MMR", {Int, NoneType}),
    Requirement("MATCHMAKING_TOP_MMR", {Int, NoneType}),
    Requirement("USE_THREADS", {Bool})
  ]

  /** The fields each TIER_CHANNELS entry needs, checked with `isinstance`. */
  const TierEntryFields: seq<(string, PyType)> :=
    [("tier_role_id", Int), ("channel_ids", List), ("role_ids_can_see_already", List)]

  predicate EndsWith(s: string, suffix: string)
  {
    |s| >= |suffix| && s[|s| - |suffix|..] == suffix
  }

  /** The config key a row names: the row's field without the `.list_items` suffix. */
  function FieldName(req: Requirement): (name: string)
    ensures EndsWith(req.field, ListItemsSuffix) ==> name + ListItemsSuffix == req.field
    ensures !EndsWith(req.field, ListItemsSuffix) ==> name == req.field
  {
    if EndsWith(req.field, ListItemsSuffix) then req.field[..|req.field| - |ListItemsSuffix|]
    else req.field
  }

  /** The type of the first item whose exact type is not allowed. */
  function FirstBadItem(items: seq<Json>, allowed: set<PyType>): Option<PyType>
  {
    if items == [] then None
    else if TypeOf(items[0]) !in allowed then Some(TypeOf(items[0]))
    else FirstBadItem(items[1..], allowed)
  }

  /** One iteration of `check`'s loop over the table. */
  function FieldCheck(config: Json, req: Requirement): Option<ConfigError>
    requires config.JObject?
  {
    var name := FieldName(req);
    match Lookup(config.entries, JStr(name))
    case None => Some(MissingField(name))
    case Some(data) =>
      if EndsWith(req.field, ListItemsSuffix) then
        match Items(data)
        case None => Some(NotIterable(name))
        case Some(items) =>
          match FirstBadItem(items, req.allowed)
          case Some(t) => Some(WrongItemType(name, t))
          case None => None
      else if TypeOf(data) !in req.allowed then Some(WrongType(name, TypeOf(data)))
      else None
  }

  /** The loop over the table: the first row that fails decides the error. */
  function CheckFields(config: Json, table: seq<Requirement>): Option<ConfigError>
    requires config.JObject?
  {
    if table == [] then None
    else match FieldCheck(config, table[0])
      case Some(e) => Some(e)
      case None => CheckFields(config, table[1..])
  }

  /** The checks of one TIER_CHANNELS entry's value against the needed keys, in order. */
  function CheckTierEntry(v: Json, needed: seq<(string, PyType)>): Option<ConfigError>
  {
    if needed == [] then None
    else
      var (key, t) := needed[0];
      if !v.JObject? then
        // `key in v` either fails outright or, when it holds, `v[key]` does
        if In(key, v) == Some(false) then Some(MissingTierField(key)) else Some(TierEntryTypeError(key))
      else match Lookup(v.entries, JStr(key))
        case None => Some(MissingTierField(key))
        case Some(data) =>
          if !IsInstance(data, t) then Some(WrongTierFieldType(key, TypeOf(data)))
          else CheckTierEntry(v, needed[1..])
  }

  /** The loop over `tier_channel_data.items()`: the key's type first, then the entry's fields. */
  function CheckTierEntries(entries: seq<(Json, Json)>): Option<ConfigError>
  {
    if entries == [] then None
    else if !entries[0].0.JStr? then Some(TierKeyNotStr(TypeOf(entries[0].0)))
    else match CheckTierEntry(entries[0].1, TierEntryFields)
      case Some(e) => Some(e)
      case None => CheckTierEntries(entries[1..])
  }

  /** The TIER_CHANNELS block: the field must be present and a dictionary, and every entry valid. */
  function CheckTierChannels(config: Json): Option<ConfigError>
    requires config.JObject?
  {
    match Lookup(config.entries, JStr("TIER_CHANNELS"))
    case None => Some(MissingField("TIER_CHANNELS"))
    case Some(data) =>
      if !IsInstance(data, Dict) then Some(WrongType("TIER_CHANNELS", TypeOf(data)))
      else CheckTierEntries(DictItems(data.entries))
  }

  /** `check(config)`: None when the config is validated, otherwise the error raised. A missing
      USE_THREADS after the table has passed cannot happen, since the table requires it. */
  function Check(config: Json): Option<ConfigError>
    requires config.JObject?
  {
    match CheckFields(config, StronglyRequiredFields)
    case Some(e) => Some(e)
    case None =>
      match Lookup(config.entries, JStr("USE_THREADS"))
      case None => Some(MissingField("USE_THREADS"))
      case Some(useThreads) => if !Truthy(useThreads) then CheckTierChannels(config) else None
  }

  /** The table check passes exactly when every row passes. */
  lemma {:induction false} CheckFieldsAccepts(config: Json, table: seq<Requirement>)
    requires config.JObject?
    ensures CheckFields(config, table).None? <==>
            forall i :: 0 <= i < |table| ==> FieldCheck(config, table[i]).None?
  {
    if table != [] {
      CheckFieldsAccepts(config, table[1..]);
      assert forall i :: 1 <= i < |table| ==> table[1..][i - 1] == table[i];
    }
  }

  /** When row `i` fails and every earlier row passes, that row's error is the one raised. */
  lemma {:induction false} CheckFieldsReportsFirst(config: Json, table: seq<Requirement>, i: nat)
    requires config.JObject?
    requires i < |table|
    requires FieldCheck(config, table[i]).Some?
    requires forall j :: 0 <= j < i ==> FieldCheck(config, table[j]).None?
    ensures CheckFields(config, table) == FieldCheck(config, table[i])
  {
    if i > 0 {
      assert forall j :: 0 <= j < i - 1 ==> table[1..][j] == table[j + 1];
      CheckFieldsReportsFirst(config, table[1..], i - 1);
    }
  }

  /** A field of the table that is missing from the config is reported by name, once every earlier
      row has passed. */
  lemma MissingFieldIsReported(config: Json, i: nat)
    requires config.JObject?
    requires i < |StronglyRequiredFields|
    requires forall j :: 0 <= j < i ==> FieldCheck(config, StronglyRequiredFields[j]).None?
    requires Lookup(config.entries, JStr(FieldName(StronglyRequiredFields[i]))).None?
    ensures Check(config) == Some(MissingField(FieldName(StronglyRequiredFields[i])))
  {
    CheckFieldsReportsFirst(config, StronglyRequiredFields, i);
  }

  /** A plain row passes exactly when the field is present with one of the allowed exact types. */
  lemma PlainFieldCheck(config: Json, req: Requirement)
    requires config.JObject?
    requires !EndsWith(req.field, ListItemsSuffix)
    ensures FieldCheck(config, req).None? <==>
            Lookup(config.entries, JStr(req.field)).Some? &&
            TypeOf(Lookup(config.entries, JStr(req.field)).value) in req.allowed
  {
  }

  /** A `.list_items` row on a list passes exactly when every element has an allowed exact type. */
  lemma ListItemsFieldCheck(config: Json, req: Requirement, items: seq<Json>)
    requires config.JObject?
    requires EndsWith(req.field, ListItemsSuffix)
    requires Lookup(config.entries, JStr(FieldName(req))) == Some(JList(items))
    ensures FieldCheck(config, req).None? <==> forall k :: 0 <= k < |items| ==> TypeOf(items[k]) in req.allowed
  {
    FirstBadItemSpec(items, req.allowed);
  }

  /** The first bad item is found exactly when some item has a type outside the allowed set. */
  lemma {:induction false} FirstBadItemSpec(items: seq<Json>, allowed: set<PyType>)
    ensures FirstBadItem(items, allowed).None? <==> forall k :: 0 <= k < |items| ==> TypeOf(items[k]) in allowed
    ensures FirstBadItem(items, allowed).Some? ==> FirstBadItem(items, allowed).value !in allowed
  {
    if items != [] {
      FirstBadItemSpec(items[1..], allowed);
      assert forall k :: 1 <= k < |items| ==> items[1..][k - 1] == items[k];
    }
  }

  /** The main table compares exact types, so a boolean is not an int there. */
  lemma ExactTypeRejectsBool(b: bool)
    ensures FieldCheck(JObject([(JStr("guild_id"), JBool(b))]), StronglyRequiredFields[4])
            == Some(WrongType("guild_id", Bool))
  {
    var req := StronglyRequiredFields[4];
    assert req.field == "guild_id";
    assert req.allowed == {Int};
    assert !EndsWith("guild_id", ListItemsSuffix);
    assert FieldName(req) == "guild_id";
  }

  /** An entry with an int-like `tier_role_id` and empty lists for the other two fields passes. */
  lemma TierEntryWithRoleAccepted(role: Json)
    requires IsInstance(role, Int)
    ensures CheckTierEntry(JObject([(JStr("tier_role_id"), role),
                                    (JStr("channel_ids"), JList([])),
                                    (JStr("role_ids_can_see_already"), JList([]))]), TierEntryFields) == None
  {
    var v := JObject([(JStr("tier_role_id"), role),
                      (JStr("channel_ids"), JList([])),
                      (JStr("role_ids_can_see_already"), JList([]))]);
    assert Lookup(v.entries, JStr("tier_role_id")) == Some(role) by {
      assert v.entries[2].0 != JStr("tier_role_id");
      assert v.entries[..2][1].0 != JStr("tier_role_id");
      assert v.entries[..2][..1][0].0 == JStr("tier_role_id");
    }
    assert Lookup(v.entries, JStr("channel_ids")) == Some(JList([])) by {
      assert v.entries[2].0 != JStr("channel_ids");
      assert v.entries[..2][1].0 == JStr("channel_ids");
    }
    assert Lookup(v.entries, JStr("role_ids_can_see_already")) == Some(JList([]));
    assert CheckTierEntry(v, TierEntryFields[2..]) == None by {
      assert TierEntryFields[2..][0] == ("role_ids_can_see_already", List);
      assert TierEntryFields[2..][1..] == [];
    }
    assert CheckTierEntry(v, TierEntryFields[1..]) == None by {
      assert TierEntryFields[1..][0] == ("channel_ids", List);
      assert TierEntryFields[1..][1..] == TierEntryFields[2..];
    }
  }

  /** TIER_CHANNELS uses `isinstance`, for which a boolean is an int. */
  lemma IsInstanceAcceptsBool(b: bool)
    ensures CheckTierEntry(JObject([(JStr("tier_role_id"), JBool(b)),
                                    (JStr("channel_ids"), JList([])),
                                    (JStr("role_ids_can_see_already"), JList([]))]), TierEntryFields) == None
  {
    TierEntryWithRoleAccepted(JBool(b));
  }

  /** When USE_THREADS is set, TIER_CHANNELS is never looked at; when it is not, TIER_CHANNELS
      decides the outcome. */
  lemma TierChannelsOnlyWithoutThreads(config: Json, useThreads: bool)
    requires config.JObject?
    requires CheckFields(config, StronglyRequiredFields).None?
    requires Lookup(config.entries, JStr("USE_THREADS")) == Some(JBool(useThreads))
    ensures useThreads ==> Check(config).None?
    ensures !useThreads ==> Check(config) == CheckTierChannels(config)
  {
  }

  /** The TIER_CHANNELS items pass exactly when every key is a string and every value passes. */
  lemma {:induction false} CheckTierEntriesAccepts(entries: seq<(Json, Json)>)
    ensures CheckTierEntries(entries).None? <==>
            forall k :: 0 <= k < |entries| ==>
              entries[k].0.JStr? && CheckTierEntry(entries[k].1, TierEntryFields).None?
  {
    if entries != [] {
      CheckTierEntriesAccepts(entries[1..]);
      assert forall k :: 1 <= k < |entries| ==> entries[1..][k - 1] == entries[k];
    }
  }

  /** The TIER_CHANNELS dictionary passes exactly when every key it binds is a string whose value,
      the last one given for the key, passes; an earlier value of a repeated key is never checked. */
  lemma TierChannelsDictAccepts(entries: seq<(Json, Json)>)
    ensures CheckTierEntries(DictItems(entries)).None? <==>
            forall k :: Lookup(entries, k).Some? ==>
              k.JStr? && CheckTierEntry(Lookup(entries, k).value, TierEntryFields).None?
  {
    var items := DictItems(entries);
    CheckTierEntriesAccepts(items);
    forall k | Lookup(entries, k).Some?
      ensures (k, Lookup(entries, k).value) in items
    {
      DictItemsMembers(entries, k, Lookup(entries, k).value);
    }
  }

  /** A repeated TIER_CHANNELS key is checked with its last value only: a bad earlier value does
      not fail the check. */
  lemma RepeatedTierKeyLastWins()
    ensures var good := JObject([(JStr("tier_role_id"), JInt(1)),
                                 (JStr("channel_ids"), JList([])),
                                 (JStr("role_ids_can_see_already"), JList([]))]);
            CheckTierEntries(DictItems([(JStr("a"), JInt(5)), (JStr("a"), good)])).None?
  {
    var good := JObject([(JStr("tier_role_id"), JInt(1)),
                         (JStr("channel_ids"), JList([])),
                         (JStr("role_ids_can_see_already"), JList([]))]);
    var entries := [(JStr("a"), JInt(5)), (JStr("a"), good)];
    assert Keys(entries) == [JStr("a")] by {
      assert entries[..1] == [(JStr("a"), JInt(5))];
      assert entries[..1][..0] == [];
      assert Keys(entries[..1]) == [JStr("a")];
      assert entries[1].0 in Keys(entries[..1]);
    }
    assert Lookup(entries, JStr("a")) == Some(good);
    var items := DictItems(entries);
    assert items == [(JStr("a"), good)];
    TierEntryWithRoleAccepted(JInt(1));
    assert items[1..] == [];
  }

  /** An entry value passes exactly when it is a dictionary holding every needed key with a value of
      the needed type. */
  lemma {:induction false} CheckTierEntryAccepts(v: Json, needed: seq<(string, PyType)>)
    requires needed != []
    ensures CheckTierEntry(v, needed).None? <==>
            v.JObject? &&
            forall k :: 0 <= k < |needed| ==>
              Lookup(v.entries, JStr(needed[k].0)).Some? &&
              IsInstance(Lookup(v.entries, JStr(needed[k].0)).value, needed[k].1)
  {
    if |needed| > 1 {
      CheckTierEntryAccepts(v, needed[1..]);
      assert forall k :: 1 <= k < |needed| ==> needed[1..][k - 1] == needed[k];
    }
  }
}
