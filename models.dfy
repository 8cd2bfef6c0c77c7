/**
 * The two collections of the backend store: user accounts (with their
 * settings block) and analysis records.
 */
module Models {
  /** A Mongo document id, abstracted to a number. */
  type UserId = nat

  /** The four notification switches of `settings.notifications`. */
  datatype Notifications = Notifications(
    emailAlerts: bool,
    pushNotifications: bool,
    weeklyReports: bool,
    analysisComplete: bool)

  /** The `settings` block of an account. */
  datatype UserSettings = UserSettings(theme: string, notifications: Notifications)

  /** An account; `password` holds the bcrypt hash the save hook stores. */
  datatype User = User(
    name: string,
    email: string,
    password: string,
    role: string,
    settings: UserSettings)

  /** The schema default of `role`. */
  const DEFAULT_ROLE := "User"

  /** The schema defaults of the settings block: a light theme and every switch off. */
  const DEFAULT_SETTINGS := UserSettings("light", Notifications(false, false, false, false))

  /**
   * An analysis record. `score` and `processingTime` are numbers: the only
   * writer stores `matchPercentage || 0` and a rounded elapsed time.
   * `createdAt` is the timestamp Mongoose sets on creation, in ms.
   */
  datatype Resume = Resume(
    owner: UserId,
    filename: string,
    skills: seq<string>,
    missingSkills: seq<string>,
    score: int,
    processingTime: int,
    createdAt: int)

  /** The store: accounts by id and records in insertion (natural) order. */
  class Database {
    var users: map<UserId, User>
    var resumes: seq<Resume>

    constructor ()
      ensures users == map[] && resumes == []
    {
      users := map[];
      resumes := [];
    }
  }

  /**
   * The elements of `xs` satisfying `p`, in their original order: what a
   * Mongo query with a condition returns in natural order.
   */
  function Filter<T(!new)>(xs: seq<T>, p: T -> bool): (r: seq<T>)
    ensures |r| <= |xs|
    ensures forall x :: x in r <==> x in xs && p(x)
    ensures forall x :: multiset(r)[x] == if p(x) then multiset(xs)[x] else 0
    ensures forall i :: 0 <= i < |r| ==> p(r[i])
  {
    if xs == [] then []
    else
      var rest := Filter(xs[..|xs| - 1], p);
      assert xs == xs[..|xs| - 1] + [xs[|xs| - 1]];
      if p(xs[|xs| - 1]) then rest + [xs[|xs| - 1]] else rest
  }

  /** Filtering distributes over concatenation, so it keeps relative order. */
  lemma {:induction false} FilterAppend<T(!new)>(a: seq<T>, b: seq<T>, p: T -> bool)
    ensures Filter(a + b, p) == Filter(a, p) + Filter(b, p)
    decreases |b|
  {
    if b == [] {
      assert a + b == a;
    } else {
      var b' := b[..|b| - 1];
      assert (a + b)[..|a + b| - 1] == a + b';
      FilterAppend(a, b', p);
    }
  }

  /** `Resume.find({ user })`: the records of one user, in natural order. */
  function OwnedBy(rs: seq<Resume>, user: UserId): (r: seq<Resume>)
    ensures forall x :: x in r <==> x in rs && x.owner == user
    ensures |r| <= |rs|
  {
    Filter(rs, (x: Resume) => x.owner == user)
  }
}
