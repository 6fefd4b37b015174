/**
 * The notification service's computations: placeholder substitution in notification text
 * (generateContent), flattening the evaluated devices into one list (classifyTypeAndTitle),
 * counting unread entries of a page (list), and the makeup of a threshold-warning
 * notification (createWarningThresholdNotificationDto).
 */
module NotificationService {
  import opened Wrappers
  import Js
  import Strings
  import ThingService
  import Seqs

  // ---------------------------------------------------------------------------
  // generateContent
  // ---------------------------------------------------------------------------

  /** The placeholder of the argument at `index`: '$' followed by index + 1 in decimal. */
  function Placeholder(index: nat): (p: string)
    ensures |p| >= 2 && p[0] == '$' && p[1] != '0'
    ensures Strings.IsNumeral(p[1..], 10) && Strings.ParseNat(p[1..], 10) == index + 1
  {
    Strings.ParseNatToString(index + 1, 10);
    var digits := Strings.NatToString(index + 1, 10);
    assert ("$" + digits)[1..] == digits;
    "$" + digits
  }

  /** The text after the first `|args|` replacement steps, each acting on the previous step's text. */
  function Substituted(content: string, args: seq<string>): (r: string)
    decreases |args|
    ensures args == [] ==> r == content
  {
    if args == [] then content
    else
      var k := |args| - 1;
      Strings.ReplaceFirst(Substituted(content, args[..k]), Placeholder(k), args[k])
  }

  /** generateContent: replaces the first "$1" by args[0], then the first "$2" by args[1], and so on. */
  method GenerateContent(content: string, args: seq<string>) returns (r: string)
    ensures r == Substituted(content, args)
  {
    r := content;
    var index := 0;
    while index < |args|
      invariant 0 <= index <= |args|
      invariant r == Substituted(content, args[..index])
    {
      assert args[..index + 1][..index] == args[..index];
      r := Strings.ReplaceFirst(r, "$" + Strings.NatToString(index + 1, 10), args[index]);
      index := index + 1;
    }
    assert args[..|args|] == args;
  }

  /** One step: only the first occurrence of the step's placeholder is replaced; later ones remain. */
  lemma SubstitutedStep(content: string, args: seq<string>, arg: string, i: nat)
    requires var t := Substituted(content, args);
      Strings.OccursAt(t, Placeholder(|args|), i)
      && forall j: nat :: j < i ==> !Strings.OccursAt(t, Placeholder(|args|), j)
    ensures var t := Substituted(content, args);
      var r := Substituted(content, args + [arg]);
      var p := Placeholder(|args|);
      && r[..i] == t[..i]
      && r[i..i + |arg|] == arg
      && r[i + |arg|..] == t[i + |p|..]
  {
    assert (args + [arg])[..|args|] == args;
    Strings.ReplaceFirstAt(Substituted(content, args), Placeholder(|args|), arg, i);
  }

  /** A step whose placeholder does not occur leaves the text as it was. */
  lemma SubstitutedStepAbsent(content: string, args: seq<string>, arg: string)
    requires forall j :: !Strings.OccursAt(Substituted(content, args), Placeholder(|args|), j)
    ensures Substituted(content, args + [arg]) == Substituted(content, args)
  {
    assert (args + [arg])[..|args|] == args;
  }

  /** Text without any '$', with arguments without any '$', comes out unchanged. */
  lemma {:induction false} SubstitutedWithoutDollar(content: string, args: seq<string>)
    requires '$' !in content
    requires forall k :: 0 <= k < |args| ==> '$' !in args[k]
    decreases |args|
    ensures Substituted(content, args) == content
  {
    if args != [] {
      var k := |args| - 1;
      SubstitutedWithoutDollar(content, args[..k]);
      var t := Substituted(content, args[..k]);
      forall j: nat ensures !Strings.OccursAt(t, Placeholder(k), j) {
        if j + |Placeholder(k)| <= |t| {
          assert t[j..j + |Placeholder(k)|][0] == t[j];
        }
      }
      Strings.ReplaceFirstAbsent(t, Placeholder(k), args[k]);
    }
  }

  /** The placeholders of the first and the tenth argument. */
  lemma PlaceholderExamples()
    ensures Placeholder(0) == "$1" && Placeholder(9) == "$10"
  {
    assert Strings.NatToString(1, 10) == "1";
    assert Strings.NatToString(10, 10) == Strings.NatToString(1, 10) + [Strings.DigitChar(0)];
  }

  /** "$1" matches the start of "$10": a first argument lands in front of the tenth's trailing "0". */
  lemma SubstitutedPrefixPlaceholder()
    ensures Substituted("$10", ["X"]) == "X0"
  {
    PlaceholderExamples();
    assert ["X"][..0] == [];
    assert Strings.OccursAt("$10", "$1", 0);
    Strings.ReplaceFirstAt("$10", "$1", "X", 0);
  }

  /** Text inserted by an earlier argument is visible to later steps. */
  lemma SubstitutedSequentially()
    ensures Substituted("$1", ["$2", "b"]) == "b"
  {
    PlaceholderExamples();
    assert Strings.NatToString(2, 10) == "2";
    assert ["$2", "b"][..1] == ["$2"];
    assert ["$2"][..0] == [];
    assert Strings.OccursAt("$1", "$1", 0);
    Strings.ReplaceFirstAt("$1", "$1", "$2", 0);
    assert Substituted("$1", ["$2"]) == "$2";
    assert Strings.OccursAt("$2", "$2", 0);
    Strings.ReplaceFirstAt("$2", "$2", "b", 0);
  }

  // ---------------------------------------------------------------------------
  // classifyTypeAndTitle
  // ---------------------------------------------------------------------------

  /** The evaluated parameters of every device, device after device. */
  function Flatten(devices: seq<ThingService.EvaluatedDevice>): (r: seq<ThingService.EvaluatedParameter>)
    decreases |devices|
    ensures forall e :: e in r ==> exists d :: 0 <= d < |devices| && e in devices[d].evaluatedParameterStandards
  {
    if devices == [] then []
    else
      var init := devices[..|devices| - 1];
      assert forall d :: 0 <= d < |init| ==> init[d] == devices[d];
      Flatten(init) + devices[|devices| - 1].evaluatedParameterStandards
  }

  /** The sum of the lengths of the devices' evaluated-parameter lists. */
  function TotalEntries(devices: seq<ThingService.EvaluatedDevice>): nat
    decreases |devices|
  {
    if devices == [] then 0
    else TotalEntries(devices[..|devices| - 1]) + |devices[|devices| - 1].evaluatedParameterStandards|
  }

  /** Flattening a concatenation of device lists concatenates their flattenings. */
  lemma {:induction false} FlattenAppend(ds: seq<ThingService.EvaluatedDevice>, es: seq<ThingService.EvaluatedDevice>)
    decreases |es|
    ensures Flatten(ds + es) == Flatten(ds) + Flatten(es)
    ensures TotalEntries(ds + es) == TotalEntries(ds) + TotalEntries(es)
  {
    if es == [] {
      assert ds + es == ds;
    } else {
      var init := es[..|es| - 1];
      assert (ds + es)[..|ds + es| - 1] == ds + init;
      FlattenAppend(ds, init);
    }
  }

  /** The flattened list has as many entries as all devices together. */
  lemma {:induction false} FlattenLength(devices: seq<ThingService.EvaluatedDevice>)
    decreases |devices|
    ensures |Flatten(devices)| == TotalEntries(devices)
  {
    if devices != [] {
      FlattenLength(devices[..|devices| - 1]);
    }
  }

  /** An entry is in the flattened list iff it is in the list of one of the devices. */
  lemma {:induction false} FlattenMembership(devices: seq<ThingService.EvaluatedDevice>, e: ThingService.EvaluatedParameter)
    decreases |devices|
    ensures e in Flatten(devices) <==>
      exists d :: 0 <= d < |devices| && e in devices[d].evaluatedParameterStandards
  {
    if devices != [] {
      var init := devices[..|devices| - 1];
      FlattenMembership(init, e);
      if e in Flatten(init) {
        var d :| 0 <= d < |init| && e in init[d].evaluatedParameterStandards;
        assert devices[d] == init[d];
      }
      if exists d :: 0 <= d < |devices| && e in devices[d].evaluatedParameterStandards {
        var d :| 0 <= d < |devices| && e in devices[d].evaluatedParameterStandards;
        if d < |init| {
          assert init[d] == devices[d];
        }
      }
    }
  }

  /**
   * classifyTypeAndTitle: pushes each device's evaluated parameters in device order. When the
   * thing has no devices, validateThingData yields `undefined` and the forEach throws.
   */
  method ClassifyTypeAndTitle(validateParameterDevices: Option<seq<ThingService.EvaluatedDevice>>)
    returns (r: Result<seq<ThingService.EvaluatedParameter>, string>)
    ensures validateParameterDevices.None? <==> r.Failure?
    ensures r.Success? ==> r.value == Flatten(validateParameterDevices.value)
  {
    if validateParameterDevices.None? {
      return Failure("TypeError");
    }
    var devices := validateParameterDevices.value;
    var evaluatedParameters: seq<ThingService.EvaluatedParameter> := [];
    var i := 0;
    while i < |devices|
      invariant 0 <= i <= |devices|
      invariant evaluatedParameters == Flatten(devices[..i])
    {
      assert devices[..i + 1][..i] == devices[..i];
      evaluatedParameters := evaluatedParameters + devices[i].evaluatedParameterStandards;
      i := i + 1;
    }
    assert devices[..|devices|] == devices;
    r := Success(evaluatedParameters);
  }

  /** A thing without devices makes classifyTypeAndTitle throw, whatever the reading. */
  lemma ClassifyWithoutDevicesFails(data: ThingService.ThingData, acceptable: seq<string>)
    ensures ThingService.Validated(data, [], acceptable) == None
    ensures ClassifyFlattened(ThingService.Validated(data, [], acceptable)).Failure?
  {
  }

  /** The result classifyTypeAndTitle computes, as a function of what validateThingData returned. */
  function ClassifyFlattened(validateParameterDevices: Option<seq<ThingService.EvaluatedDevice>>)
    : (r: Result<seq<ThingService.EvaluatedParameter>, string>)
    ensures validateParameterDevices.None? <==> r.Failure?
  {
    match validateParameterDevices
    case None => Failure("TypeError")
    case Some(devices) => Success(Flatten(devices))
  }

  /** The evidently intended behaviour: a thing without devices has no evaluated parameters. */
  function ClassifyTypeAndTitleCorrected(validateParameterDevices: Option<seq<ThingService.EvaluatedDevice>>)
    : (r: seq<ThingService.EvaluatedParameter>)
    ensures validateParameterDevices.None? ==> r == []
    ensures |r| == TotalEntries(validateParameterDevices.GetOr([]))
  {
    FlattenLength(validateParameterDevices.GetOr([]));
    Flatten(validateParameterDevices.GetOr([]))
  }

  /** The corrected flattening agrees with the original wherever the original does not throw. */
  lemma ClassifyCorrectedAgrees(validateParameterDevices: Option<seq<ThingService.EvaluatedDevice>>)
    requires ClassifyFlattened(validateParameterDevices).Success?
    ensures ClassifyTypeAndTitleCorrected(validateParameterDevices) == ClassifyFlattened(validateParameterDevices).value
  {
  }

  // ---------------------------------------------------------------------------
  // totalUnread in list
  // ---------------------------------------------------------------------------

  /**
   * The `readAt` of a listed entry: one value, or the array that a field path through an array
   * of sub-documents yields.
   */
  datatype ReadAt = One(value: Js.Nullable<int>) | Many(values: seq<Js.Nullable<int>>)

  /** An entry of a page of notifications; only its `readAt` field matters here. */
  datatype NotificationEntry = NotificationEntry(id: string, readAt: ReadAt)

  /**
   * `notification?.readAt === null`: strict, so an entry whose field is missing, or is an
   * array (even of nulls), is not unread.
   */
  predicate IsUnread(n: NotificationEntry): (b: bool)
    ensures b ==> n.readAt.One?
    ensures n.readAt == One(Js.Undefined) ==> !b
  {
    n.readAt == One(Js.Null)
  }

  /** The entries of a page that are unread, in page order (the filter). */
  function Unread(page: seq<NotificationEntry>): (r: seq<NotificationEntry>)
    decreases |page|
    ensures |r| <= |page|
    ensures forall k :: 0 <= k < |r| ==> IsUnread(r[k]) && r[k] in page
  {
    if page == [] then []
    else
      var init := page[..|page| - 1];
      var n := page[|page| - 1];
      assert page == init + [n];
      Unread(init) + (if IsUnread(n) then [n] else [])
  }

  /** The faceted result of the list aggregation: one page of entries. */
  datatype ListResult = ListResult(paginatedResults: seq<NotificationEntry>)

  /** totalUnread: the unread count of the first result, `undefined` when there is no result. */
  function TotalUnread(notifications: seq<ListResult>): (r: Option<nat>)
    ensures r.None? <==> notifications == []
    ensures r.Some? ==> r.value <= |notifications[0].paginatedResults|
  {
    if notifications == [] then None else Some(|Unread(notifications[0].paginatedResults)|)
  }

  /** The count is the page length exactly when every entry is unread, and zero when none is. */
  lemma {:induction false} UnreadCountExtremes(page: seq<NotificationEntry>)
    decreases |page|
    ensures |Unread(page)| == |page| <==> forall k :: 0 <= k < |page| ==> IsUnread(page[k])
    ensures |Unread(page)| == 0 <==> forall k :: 0 <= k < |page| ==> !IsUnread(page[k])
  {
    if page != [] {
      var init := page[..|page| - 1];
      UnreadCountExtremes(init);
      assert forall k :: 0 <= k < |init| ==> init[k] == page[k];
    }
  }

  /** Counting is additive over consecutive stretches of a page. */
  lemma {:induction false} UnreadAppend(p: seq<NotificationEntry>, q: seq<NotificationEntry>)
    decreases |q|
    ensures Unread(p + q) == Unread(p) + Unread(q)
  {
    if q == [] {
      assert p + q == p;
    } else {
      var init := q[..|q| - 1];
      assert (p + q)[..|p + q| - 1] == p + init;
      UnreadAppend(p, init);
    }
  }

  // ---------------------------------------------------------------------------
  // createWarningThresholdNotificationDto
  // ---------------------------------------------------------------------------

  /** A receiver of a notification: the user and when they read it (`null` while unread). */
  datatype Receiver = Receiver(userId: string, readAt: Js.Nullable<int>)

  /** The two mappings of the managers: to their user ids, then to unread receivers. */
  function Receivers(managers: seq<ThingService.Manager>): (r: seq<Receiver>)
    ensures |r| == |managers|
    ensures forall k :: 0 <= k < |managers| ==> r[k].userId == managers[k].userId && r[k].readAt == Js.Null
  {
    var receivers := seq(|managers|, k requires 0 <= k < |managers| => managers[k].userId);
    seq(|receivers|, k requires 0 <= k < |receivers| => Receiver(receivers[k], Js.Null))
  }

  /** Every manager receives the notification, and no one else does. */
  lemma ReceiversAreManagers(managers: seq<ThingService.Manager>, userId: string)
    ensures (exists k :: 0 <= k < |Receivers(managers)| && Receivers(managers)[k].userId == userId)
      <==> ThingService.IsManager(managers, userId)
  {
    var r := Receivers(managers);
    if ThingService.IsManager(managers, userId) {
      var k :| 0 <= k < |managers| && managers[k].userId == userId;
      assert r[k].userId == userId;
    }
  }

  datatype Notification = Notification(
    title: string,
    content: string,
    kind: ThingService.ParameterType,
    receivers: seq<Receiver>)

  /** `TITLE.EXCEED_THRESHOLD`. */
  const ExceedThresholdTitle := "Parameter exceed allowed threshold"

  /**
   * The notification built for a threshold warning. The template and the formatted argument
   * are inputs: the template constant and its formatter are not part of this model.
   */
  method CreateWarningThresholdNotification(thingId: string, managers: seq<ThingService.Manager>,
                                            template: string, templateContentArgument: string)
    returns (n: Notification)
    ensures n.title == ExceedThresholdTitle
    ensures n.content == Substituted(template, [thingId, templateContentArgument])
    ensures n.kind == ThingService.Warning
    ensures n.receivers == Receivers(managers)
  {
    var content := GenerateContent(template, [thingId, templateContentArgument]);
    n := Notification(ExceedThresholdTitle, content, ThingService.Warning, Receivers(managers));
  }

  /** A freshly built notification is unread by all of its receivers. */
  lemma FreshNotificationUnread(managers: seq<ThingService.Manager>)
    ensures forall k :: 0 <= k < |Receivers(managers)| ==> Receivers(managers)[k].readAt.Null?
  {
  }

  // ---------------------------------------------------------------------------
  // The `readAt` the list aggregation computes
  // ---------------------------------------------------------------------------

  /** A stored notification: its id and its receivers. */
  datatype StoredNotification = StoredNotification(id: string, receivers: seq<Receiver>)

  /** The `readAt` of every receiver, in receiver order. */
  function ReadAts(receivers: seq<Receiver>): (r: seq<Js.Nullable<int>>)
    ensures |r| == |receivers|
    ensures forall k :: 0 <= k < |receivers| ==> r[k] == receivers[k].readAt
  {
    seq(|receivers|, k requires 0 <= k < |receivers| => receivers[k].readAt)
  }

  /**
   * The list aggregation as written: `$set: { readAt: '$receivers.readAt' }` on a notification
   * whose `receivers` is an array gives the array of every receiver's `readAt`.
   */
  function ListedEntry(n: StoredNotification): (e: NotificationEntry)
    ensures e.id == n.id && e.readAt == Many(ReadAts(n.receivers))
  {
    NotificationEntry(n.id, Many(ReadAts(n.receivers)))
  }

  /** A page of listed entries, one per stored notification, in order. */
  function ListedPage(ns: seq<StoredNotification>): (page: seq<NotificationEntry>)
    ensures |page| == |ns|
    ensures forall k :: 0 <= k < |ns| ==> page[k] == ListedEntry(ns[k])
  {
    seq(|ns|, k requires 0 <= k < |ns| => ListedEntry(ns[k]))
  }

  /** As written, no listed entry is ever unread, so `totalUnread` is 0 on every page. */
  lemma TotalUnreadAsWrittenIsZero(ns: seq<StoredNotification>)
    ensures TotalUnread([ListResult(ListedPage(ns))]) == Some(0)
  {
    UnreadCountExtremes(ListedPage(ns));
  }

  /** A fresh warning, unread by every manager, is still not counted as written. */
  lemma FreshNotificationNotCounted(id: string, managers: seq<ThingService.Manager>)
    ensures forall k :: 0 <= k < |managers| ==> Receivers(managers)[k].readAt == Js.Null
    ensures TotalUnread([ListResult(ListedPage([StoredNotification(id, Receivers(managers))]))]) == Some(0)
  {
    TotalUnreadAsWrittenIsZero([StoredNotification(id, Receivers(managers))]);
  }

  /** The requesting user's `readAt`: that of the user's first receiver entry, `undefined` if none. */
  function ReceiverReadAt(receivers: seq<Receiver>, userId: string): (r: Js.Nullable<int>)
    decreases |receivers|
    ensures (forall k :: 0 <= k < |receivers| ==> receivers[k].userId != userId) ==> r == Js.Undefined
    ensures forall k ::
      (0 <= k < |receivers| && receivers[k].userId == userId
       && forall j :: 0 <= j < k ==> receivers[j].userId != userId)
      ==> r == receivers[k].readAt
  {
    if receivers == [] then Js.Undefined
    else if receivers[0].userId == userId then receivers[0].readAt
    else
      var rest := receivers[1..];
      assert forall k :: 1 <= k < |receivers| ==> rest[k - 1] == receivers[k];
      ReceiverReadAt(rest, userId)
  }

  /** The corrected aggregation: the entry carries the requesting user's own `readAt`. */
  function ListedEntryFor(n: StoredNotification, userId: string): (e: NotificationEntry)
    ensures e.id == n.id && e.readAt == One(ReceiverReadAt(n.receivers, userId))
  {
    NotificationEntry(n.id, One(ReceiverReadAt(n.receivers, userId)))
  }

  /**
   * Corrected, an entry is unread exactly when the requesting user's receiver entry has
   * `readAt` null; a fresh warning is unread for each of its managers.
   */
  lemma ListedEntryForUnread(n: StoredNotification, userId: string, k: nat)
    requires k < |n.receivers| && n.receivers[k].userId == userId
    requires forall j :: 0 <= j < k ==> n.receivers[j].userId != userId
    ensures IsUnread(ListedEntryFor(n, userId)) <==> n.receivers[k].readAt == Js.Null
  {
  }

  /** Corrected, a fresh warning counts as unread for every manager of the thing. */
  lemma FreshNotificationCountedCorrected(id: string, managers: seq<ThingService.Manager>, userId: string)
    requires ThingService.IsManager(managers, userId)
    ensures IsUnread(ListedEntryFor(StoredNotification(id, Receivers(managers)), userId))
  {
    var rs := Receivers(managers);
    var i :| 0 <= i < |managers| && managers[i].userId == userId;
    var ids := UserIds(rs);
    assert ids[i] == userId;
    var k := Seqs.FirstIndex(ids, userId);
    assert forall j :: 0 <= j < k ==> ids[..k][j] == rs[j].userId;
    ListedEntryForUnread(StoredNotification(id, rs), userId, k);
  }

  /** The user ids of the receivers, in order: the `'$receivers.userId'` path of the aggregation. */
  function UserIds(rs: seq<Receiver>): (ids: seq<string>)
    ensures |ids| == |rs| && forall j :: 0 <= j < |rs| ==> ids[j] == rs[j].userId
  {
    seq(|rs|, j requires 0 <= j < |rs| => rs[j].userId)
  }
}
