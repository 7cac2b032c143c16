/** The validation accumulator that `AuthRequest` inherits: an ordered list of
    (key, message) notifications, valid exactly when the list is empty. */
module Notifications {
  import opened Primitives

  datatype Notification = Notification(key: string, message: string)

  /** The state of a `Notifiable` object: its notification list. */
  datatype Notifiable = Notifiable(notifications: seq<Notification>)

  /** One error of a validator's result (its property name and message). */
  datatype ValidationFailure = ValidationFailure(propertyName: string, errorMessage: string)

  /** A validator's result; it is valid when it carries no error. */
  datatype ValidationResult = ValidationResult(errors: seq<ValidationFailure>)

  predicate ResultIsValid(v: ValidationResult) {
    |v.errors| == 0
  }

  /** `IsValid`: true exactly when no notification has been added. */
  function IsValid(n: Notifiable): (valid: bool)
    ensures valid <==> n.notifications == []
  {
    |n.notifications| == 0
  }

  /** How a call that may throw ends: it returns, or it throws
      `ArgumentNullException`; either way the object is left in `state`. */
  datatype CallResult = Returned(state: Notifiable) | ThrewArgumentNull(state: Notifiable)

  /** A freshly constructed notifiable starts with no notification. */
  function NewNotifiable(): (n: Notifiable)
    ensures IsValid(n)
  {
    Notifiable([])
  }

  /** The notification a validation failure becomes, in the failure's order. */
  function FailureNotes(errors: seq<ValidationFailure>): (notes: seq<Notification>)
  {
    seq(|errors|, k requires 0 <= k < |errors| => Notification(errors[k].propertyName, errors[k].errorMessage))
  }

  /** `AddNotification(key, message)`: one new notification at the end. */
  function AddNotification(n: Notifiable, key: string, message: string): (r: Notifiable)
    ensures |r.notifications| == |n.notifications| + 1
    ensures r.notifications[..|n.notifications|] == n.notifications
    ensures r.notifications[|n.notifications|] == Notification(key, message)
    ensures !IsValid(r)
  {
    Notifiable(n.notifications + [Notification(key, message)])
  }

  /** `AddNotification(notification)`: the overload taking a ready-made notification. */
  function AddNotificationItem(n: Notifiable, notification: Notification): (r: Notifiable)
    ensures |r.notifications| == |n.notifications| + 1
    ensures r.notifications[..|n.notifications|] == n.notifications
    ensures r.notifications[|n.notifications|] == notification
    ensures !IsValid(r)
  {
    Notifiable(n.notifications + [notification])
  }

  /** The three collection overloads of `AddNotifications` (read-only
      collection, list, collection): the elements are appended in order. */
  function AddNotifications(n: Notifiable, notifications: seq<Notification>): (r: Notifiable)
    ensures |r.notifications| == |n.notifications| + |notifications|
    ensures r.notifications[..|n.notifications|] == n.notifications
    ensures r.notifications[|n.notifications|..] == notifications
    ensures IsValid(r) <==> IsValid(n) && |notifications| == 0
  {
    Notifiable(n.notifications + notifications)
  }

  /** `AddNotifications(Notifiable)` as written: `notifiable?.Notifications`
      is null for a null argument, and that null reaches `List.AddRange`,
      which throws `ArgumentNullException` before adding anything. */
  function AddNotificationsOfAsWritten(n: Notifiable, other: Option<Notifiable>): (r: CallResult)
    ensures other.None? <==> r.ThrewArgumentNull?
    ensures other.None? ==> r.state == n
    ensures other.Some? ==> r.state == AddNotifications(n, other.value.notifications)
  {
    match other
    case None => ThrewArgumentNull(n)
    case Some(o) => Returned(AddNotifications(n, o.notifications))
  }

  /** `AddNotifications(Notifiable)` as the null-conditional operator
      evidently intends it: another object's notifications are appended, and
      a null argument adds nothing. */
  function AddNotificationsOf(n: Notifiable, other: Option<Notifiable>): (r: Notifiable)
    ensures other.None? ==> r == n
    ensures other.Some? ==> r.notifications == n.notifications + other.value.notifications
    ensures IsValid(r) <==> IsValid(n) && (other.None? || IsValid(other.value))
  {
    match other
    case None => n
    case Some(o) => AddNotifications(n, o.notifications)
  }

  /** A null notifiable aborts the call as written, where the intended
      behaviour leaves the list as it was. */
  lemma NullNotifiableThrows(n: Notifiable)
    ensures AddNotificationsOfAsWritten(n, None) == ThrewArgumentNull(n)
    ensures AddNotificationsOf(n, None) == n
  {
  }

  /** Where the argument is not null, the written and the intended overload agree. */
  lemma NonNullNotifiableAgrees(n: Notifiable, other: Notifiable)
    ensures AddNotificationsOfAsWritten(n, Some(other)) == Returned(AddNotificationsOf(n, Some(other)))
  {
  }

  /** The notifications of an argument list, concatenated in argument order
      (a null argument contributes nothing). */
  function Gathered(notifiables: seq<Option<Notifiable>>): seq<Notification>
  {
    if |notifiables| == 0 then []
    else
      var last := notifiables[|notifiables| - 1];
      Gathered(notifiables[..|notifiables| - 1]) + (if last.Some? then last.value.notifications else [])
  }

  /** `AddNotifications(params Notifiable[])` as evidently intended: each
      argument's notifications, appended one argument after the other, a null
      argument adding nothing (see `AddNotificationsOfAllAsWritten` for the
      code as written). */
  method AddNotificationsOfAll(n: Notifiable, notifiables: seq<Option<Notifiable>>) returns (r: Notifiable)
    ensures r.notifications == n.notifications + Gathered(notifiables)
    ensures |notifiables| == 0 ==> r == n
  {
    r := n;
    for k := 0 to |notifiables|
      invariant r.notifications == n.notifications + Gathered(notifiables[..k])
    {
      assert notifiables[..k + 1][..k] == notifiables[..k];
      r := AddNotificationsOf(r, notifiables[k]);
    }
    assert notifiables[..|notifiables|] == notifiables;
  }

  /** `AddNotifications(params Notifiable[])` as written: the `foreach`
      hands each argument to the overload that throws on null, so the call
      throws at the first null argument, after the arguments before it have
      been appended. */
  function AddNotificationsOfAllAsWritten(n: Notifiable, notifiables: seq<Option<Notifiable>>): (r: CallResult)
    ensures r.Returned? <==> forall k :: 0 <= k < |notifiables| ==> notifiables[k].Some?
    ensures r.Returned? ==> r.state.notifications == n.notifications + Gathered(notifiables)
    decreases |notifiables|
  {
    if |notifiables| == 0 then Returned(n)
    else
      var init := notifiables[..|notifiables| - 1];
      assert forall j :: 0 <= j < |init| ==> init[j] == notifiables[j];
      match AddNotificationsOfAllAsWritten(n, init)
      case ThrewArgumentNull(partial) => ThrewArgumentNull(partial)
      case Returned(sofar) => AddNotificationsOfAsWritten(sofar, notifiables[|notifiables| - 1])
  }

  /** The written `params` overload throws at the first null argument `k`,
      leaving the notifications of the arguments before it appended. */
  lemma {:induction false} ThrowsAtFirstNullArgument(n: Notifiable, notifiables: seq<Option<Notifiable>>, k: nat)
    requires k < |notifiables| && notifiables[k].None?
    requires forall j :: 0 <= j < k ==> notifiables[j].Some?
    ensures AddNotificationsOfAllAsWritten(n, notifiables)
         == ThrewArgumentNull(Notifiable(n.notifications + Gathered(notifiables[..k])))
    decreases |notifiables|
  {
    var init := notifiables[..|notifiables| - 1];
    if k == |notifiables| - 1 {
      assert init == notifiables[..k];
      assert forall j :: 0 <= j < |init| ==> init[j] == notifiables[j];
    } else {
      assert forall j :: 0 <= j <= k ==> init[j] == notifiables[j];
      ThrowsAtFirstNullArgument(n, init, k);
      assert init[..k] == notifiables[..k];
    }
  }

  /** Without a null argument, the written `params` overload returns and
      leaves exactly what the intended one computes. */
  lemma AllNonNullArgumentsAgree(n: Notifiable, notifiables: seq<Option<Notifiable>>)
    requires forall k :: 0 <= k < |notifiables| ==> notifiables[k].Some?
    ensures AddNotificationsOfAllAsWritten(n, notifiables) == Returned(Notifiable(n.notifications + Gathered(notifiables)))
  {
  }

  /** The `foreach` of `AddNotifications(ValidationResult)`: one
      `AddNotification(PropertyName, ErrorMessage)` per failure, in order. */
  function AddFailures(n: Notifiable, errors: seq<ValidationFailure>): (r: Notifiable)
    ensures r.notifications == n.notifications + FailureNotes(errors)
    decreases |errors|
  {
    if |errors| == 0 then n
    else
      var rest := AddFailures(AddNotification(n, errors[0].propertyName, errors[0].errorMessage), errors[1..]);
      assert FailureNotes(errors) == [Notification(errors[0].propertyName, errors[0].errorMessage)] + FailureNotes(errors[1..]);
      rest
  }

  /** `AddNotifications(ValidationResult)`: a null or valid result adds
      nothing; an invalid one adds one notification per failure. */
  function AddValidationResult(n: Notifiable, result: Option<ValidationResult>): (r: Notifiable)
    ensures result.None? || ResultIsValid(result.value) ==> r == n
    ensures result.Some? && !ResultIsValid(result.value) ==>
      r.notifications == n.notifications + FailureNotes(result.value.errors)
    ensures IsValid(r) <==> IsValid(n) && (result.None? || ResultIsValid(result.value))
  {
    if result.Some? && !ResultIsValid(result.value) then AddFailures(n, result.value.errors) else n
  }

  /** `Clear`: every notification is dropped, so the object is valid again. */
  function Clear(n: Notifiable): (r: Notifiable)
    ensures r.notifications == []
    ensures IsValid(r)
  {
    Notifiable([])
  }
}
