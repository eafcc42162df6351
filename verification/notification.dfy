/**
  The notification service: an ordered, fixed list of notifiers that `start`,
  `notify` and `stop` walk one after the other, halting at the first failure.
  A notifier is seen only through whether each of its operations succeeds.
*/
module Notification {
  import opened GameJob

  /**
    One delivery channel and the outcome of each of its operations: whether its
    start and stop succeed, and the notifications it fails to deliver (any run
    delivers finitely many, so a finite set covers every run).
  */
  datatype Notifier = Notifier(
    name: string,
    startSucceeds: bool,
    stopSucceeds: bool,
    undeliverable: set<NotifyData>)

  datatype Op = Start | Notify(data: NotifyData) | Stop

  predicate Succeeds(n: Notifier, op: Op) {
    match op
    case Start => n.startSucceeds
    case Notify(data) => data !in n.undeliverable
    case Stop => n.stopSucceeds
  }

  /** How a walk settles: every notifier succeeded, or the one at `index` failed and its error propagated. */
  datatype Status = AllSucceeded | FailedAt(index: nat)

  /** The notifiers actually invoked, in invocation order, and how the walk settled. */
  datatype FanOut = FanOut(invoked: seq<Notifier>, status: Status)

  /**
    The walk of one `for await` loop: invoke each notifier in list order and
    stop at the first failure. The invoked notifiers are a prefix of the list,
    every one before a failure succeeded, and none after it is invoked.
  */
  function InOrder(ns: seq<Notifier>, op: Op): (r: FanOut)
    ensures |r.invoked| <= |ns|
    ensures r.invoked == ns[..|r.invoked|]
    ensures r.status == AllSucceeded <==> forall i :: 0 <= i < |ns| ==> Succeeds(ns[i], op)
    ensures r.status == AllSucceeded ==> r.invoked == ns
    ensures r.status.FailedAt? ==> r.status.index < |ns|
    ensures r.status.FailedAt? ==> |r.invoked| == r.status.index + 1
    ensures r.status.FailedAt? ==> !Succeeds(ns[r.status.index], op)
    ensures r.status.FailedAt? ==> forall i :: 0 <= i < r.status.index ==> Succeeds(ns[i], op)
    decreases |ns|
  {
    if ns == [] then FanOut([], AllSucceeded)
    else if !Succeeds(ns[0], op) then FanOut([ns[0]], FailedAt(0))
    else
      var rest := InOrder(ns[1..], op);
      FanOut([ns[0]] + rest.invoked,
             match rest.status
             case AllSucceeded => AllSucceeded
             case FailedAt(k) => FailedAt(k + 1))
  }

  /** The service holds its notifiers in a list fixed at construction; no operation changes it. */
  datatype NotificationService = NotificationService(notifiers: seq<Notifier>)

  /** `start`: start every notifier in list order; a failed start leaves the later ones unstarted. */
  function StartAll(s: NotificationService): (r: FanOut)
    ensures |r.invoked| <= |s.notifiers|
    ensures r.invoked == s.notifiers[..|r.invoked|]
    ensures r.status == AllSucceeded <==> forall i :: 0 <= i < |s.notifiers| ==> s.notifiers[i].startSucceeds
    ensures r.status == AllSucceeded ==> r.invoked == s.notifiers
    ensures r.status.FailedAt? ==> r.status.index < |s.notifiers|
    ensures r.status.FailedAt? ==> |r.invoked| == r.status.index + 1
    ensures r.status.FailedAt? ==> !s.notifiers[r.status.index].startSucceeds
    ensures r.status.FailedAt? ==> forall i :: 0 <= i < r.status.index ==> s.notifiers[i].startSucceeds
  {
    InOrder(s.notifiers, Start)
  }

  /** `notify`: deliver to every notifier in list order; a failed delivery starves the later ones. */
  function NotifyAll(s: NotificationService, data: NotifyData): (r: FanOut)
    ensures |r.invoked| <= |s.notifiers|
    ensures r.invoked == s.notifiers[..|r.invoked|]
    ensures r.status == AllSucceeded <==>
              forall i :: 0 <= i < |s.notifiers| ==> data !in s.notifiers[i].undeliverable
    ensures r.status == AllSucceeded ==> r.invoked == s.notifiers
    ensures r.status.FailedAt? ==> r.status.index < |s.notifiers|
    ensures r.status.FailedAt? ==> |r.invoked| == r.status.index + 1
    ensures r.status.FailedAt? ==> data in s.notifiers[r.status.index].undeliverable
    ensures r.status.FailedAt? ==> forall i :: 0 <= i < r.status.index ==> data !in s.notifiers[i].undeliverable
  {
    InOrder(s.notifiers, Notify(data))
  }

  /** `stop`: stop every notifier in list order, halting at the first failure. */
  function StopAll(s: NotificationService): (r: FanOut)
    ensures |r.invoked| <= |s.notifiers|
    ensures r.invoked == s.notifiers[..|r.invoked|]
    ensures r.status == AllSucceeded <==> forall i :: 0 <= i < |s.notifiers| ==> s.notifiers[i].stopSucceeds
    ensures r.status == AllSucceeded ==> r.invoked == s.notifiers
    ensures r.status.FailedAt? ==> r.status.index < |s.notifiers|
    ensures r.status.FailedAt? ==> |r.invoked| == r.status.index + 1
    ensures r.status.FailedAt? ==> !s.notifiers[r.status.index].stopSucceeds
    ensures r.status.FailedAt? ==> forall i :: 0 <= i < r.status.index ==> s.notifiers[i].stopSucceeds
  {
    InOrder(s.notifiers, Stop)
  }

  /**
    With three notifiers of which the second fails to deliver: the first and
    second are invoked, the second's failure propagates, the third is never invoked.
  */
  lemma SecondOfThreeFailsScenario(a: Notifier, b: Notifier, c: Notifier, data: NotifyData)
    requires data !in a.undeliverable && data in b.undeliverable
    ensures NotifyAll(NotificationService([a, b, c]), data) == FanOut([a, b], FailedAt(1))
  {
    var ns := [a, b, c];
    var r := NotifyAll(NotificationService(ns), data);
    assert ns[0] == a && ns[1] == b;
    assert r.status == FailedAt(1);
    assert ns[..2] == [a, b];
  }
}
