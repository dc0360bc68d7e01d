/** `SystemUser`: choosing the desktop user from the password database and the modification times
    of their shell profile files. The database and the file system are parameters. */
module Users {
  import opened Wrappers

  /** One `pwd` entry. */
  datatype Passwd = Passwd(name: string, uid: int, dir: string)

  /** A user as `get_real_user` returns it: `(name, home directory)`. */
  datatype Account = Account(name: string, home: string)

  /** The paths that exist, and the modification times `getmtime` can read; an existing path
      without a time is one whose `stat` fails. */
  datatype Host = Host(present: set<string>, mtime: map<string, real>)

  const ProfileFiles: seq<string> := [".profile", ".bashrc", ".bash_history"]

  predicate StartsWith(s: string, prefix: string) {
    |prefix| <= |s| && s[..|prefix|] == prefix
  }

  /** `os.path.join(dir, name)` for a relative `name`. */
  function PathJoin(dir: string, name: string): (p: string)
    ensures dir != [] ==> StartsWith(p, dir)
    ensures |p| >= |name| && p[|p| - |name|..] == name
  {
    if dir == "" then name
    else if dir[|dir| - 1] == '/' then dir + name
    else dir + "/" + name
  }

  /** The modification time the scan obtains for a path, if it exists and can be read. */
  function Stamp(host: Host, path: string): Option<real> {
    if path in host.present && path in host.mtime then Some(host.mtime[path]) else None
  }

  /** One file the scan looks at, and the user it speaks for. */
  datatype Probe = Probe(user: Account, path: string)

  /** A user's three profile files, in the order the inner loop visits them. */
  function Probes(a: Account): (ps: seq<Probe>)
    ensures |ps| == |ProfileFiles|
    ensures forall j :: 0 <= j < |ps| ==> ps[j].user == a
  {
    [Probe(a, PathJoin(a.home, ProfileFiles[0])),
     Probe(a, PathJoin(a.home, ProfileFiles[1])),
     Probe(a, PathJoin(a.home, ProfileFiles[2]))]
  }

  /** Probe `j` of a user is profile file `j` joined to the home directory. */
  lemma ProbeAt(a: Account, j: nat)
    requires j < |ProfileFiles|
    ensures Probes(a)[j] == Probe(a, PathJoin(a.home, ProfileFiles[j]))
  {
  }

  /** Every file the nested loops look at, in visiting order. */
  function AllProbes(users: seq<Account>): (ps: seq<Probe>)
    ensures forall k :: 0 <= k < |ps| ==> ps[k].user in users
  {
    if users == [] then []
    else
      var init := users[..|users| - 1];
      assert forall a :: a in init ==> a in users;
      AllProbes(init) + Probes(users[|users| - 1])
  }

  /** The newest time seen so far and whose file it was. */
  datatype Leader = Leader(time: real, user: Option<Account>)

  /** One probe seen by the inner loop: a readable file strictly newer than the leader's
      replaces it. */
  function Visit(l: Leader, p: Probe, host: Host): Leader {
    match Stamp(host, p.path)
    case Some(t) => if t > l.time then Leader(t, Some(p.user)) else l
    case None => l
  }

  /** `_find_most_recent_user` after the probes `ps`, starting from time 0 and nobody. The time
      never drops below 0 and stays 0 exactly while nobody leads. */
  function Scan(ps: seq<Probe>, host: Host): (r: Leader)
    ensures r.time >= 0.0 && (r.user.None? <==> r.time == 0.0)
  {
    if ps == [] then Leader(0.0, None)
    else Visit(Scan(ps[..|ps| - 1], host), ps[|ps| - 1], host)
  }

  /** The probe has no readable time above `t`. */
  predicate NotAbove(host: Host, p: Probe, t: real) {
    Stamp(host, p.path).None? || Stamp(host, p.path).value <= t
  }

  /** The probe has no readable time as recent as `t`. */
  predicate Below(host: Host, p: Probe, t: real) {
    Stamp(host, p.path).None? || Stamp(host, p.path).value < t
  }

  /** Probe `k` is a readable file stamped `t` after the epoch, no probe is newer, and no earlier
      probe is as recent. */
  predicate FirstNewest(ps: seq<Probe>, host: Host, k: nat, t: real) {
    && k < |ps|
    && Stamp(host, ps[k].path) == Some(t)
    && t > 0.0
    && (forall k' :: 0 <= k' < k ==> Below(host, ps[k'], t))
    && (forall k' :: 0 <= k' < |ps| ==> NotAbove(host, ps[k'], t))
  }

  lemma {:induction false} ScanFindsFirstNewest(ps: seq<Probe>, host: Host)
    ensures var l := Scan(ps, host);
      && (l.user.None? ==> l.time == 0.0 && forall k :: 0 <= k < |ps| ==> NotAbove(host, ps[k], 0.0))
      && (l.user.Some? ==> exists k: nat :: FirstNewest(ps, host, k, l.time) && ps[k].user == l.user.value)
  {
    if ps != [] {
      var init := ps[..|ps| - 1];
      ScanFindsFirstNewest(init, host);
      var prev := Scan(init, host);
      var stamp := Stamp(host, ps[|ps| - 1].path);
      assert forall k :: 0 <= k < |init| ==> ps[k] == init[k];
      if stamp.Some? && stamp.value > prev.time {
        var t := stamp.value;
        if prev.user.Some? {
          var k: nat :| FirstNewest(init, host, k, prev.time) && init[k].user == prev.user.value;
          assert forall k' :: 0 <= k' < |init| ==> Below(host, ps[k'], t) by {
            forall k' | 0 <= k' < |init|
              ensures Below(host, ps[k'], t)
            {
              assert NotAbove(host, init[k'], prev.time);
            }
          }
        } else {
          assert forall k' :: 0 <= k' < |init| ==> Below(host, ps[k'], t) by {
            forall k' | 0 <= k' < |init|
              ensures Below(host, ps[k'], t)
            {
              assert NotAbove(host, init[k'], 0.0);
            }
          }
        }
        assert FirstNewest(ps, host, |ps| - 1, t);
      } else if prev.user.Some? {
        var k: nat :| FirstNewest(init, host, k, prev.time) && init[k].user == prev.user.value;
        assert FirstNewest(ps, host, k, prev.time);
      } else {
        assert forall k :: 0 <= k < |init| ==> NotAbove(host, ps[k], 0.0);
      }
    }
  }

  /** The user `_find_most_recent_user` picks is one of the users and owns the newest readable
      profile file, the first in visiting order when several share that time; it picks nobody
      exactly when no profile file has a readable time above 0. */
  lemma MostRecentUserIsNewest(users: seq<Account>, host: Host)
    ensures var ps := AllProbes(users); var l := Scan(ps, host);
      && (l.user.None? <==> forall k :: 0 <= k < |ps| ==> NotAbove(host, ps[k], 0.0))
      && (l.user.Some? ==> l.user.value in users)
      && (l.user.Some? ==> exists k: nat :: FirstNewest(ps, host, k, l.time) && ps[k].user == l.user.value)
  {
    var ps := AllProbes(users);
    ScanFindsFirstNewest(ps, host);
    var l := Scan(ps, host);
    if l.user.Some? {
      var k: nat :| FirstNewest(ps, host, k, l.time) && ps[k].user == l.user.value;
      assert !NotAbove(host, ps[k], 0.0);
    }
  }

  lemma ScanSnoc(ps: seq<Probe>, p: Probe, host: Host)
    ensures Scan(ps + [p], host) == Visit(Scan(ps, host), p, host)
  {
    assert (ps + [p])[..|ps + [p]| - 1] == ps;
  }

  lemma PrefixSnoc<T>(a: seq<T>, b: seq<T>, j: nat)
    requires j < |b|
    ensures a + b[..j + 1] == (a + b[..j]) + [b[j]]
  {
    assert b[..j + 1] == b[..j] + [b[j]];
  }

  lemma AllProbesSnoc(users: seq<Account>, i: nat)
    requires i < |users|
    ensures AllProbes(users[..i + 1]) == AllProbes(users[..i]) + Probes(users[i])
  {
    assert users[..i + 1][..i] == users[..i];
  }

  /** A visit in the inner loop's terms: the path must exist, have a time, and be strictly newer. */
  lemma VisitPath(l: Leader, user: Account, path: string, host: Host)
    ensures Visit(l, Probe(user, path), host)
      == if path in host.present && path in host.mtime && host.mtime[path] > l.time
         then Leader(host.mtime[path], Some(user)) else l
  {
  }

  /** The inner loop of `_find_most_recent_user`: one user's profile files, continuing from the
      leader the probes `done` left behind. */
  method ScanProfiles(user: Account, host: Host, ghost done: seq<Probe>, time0: real, user0: Option<Account>)
    returns (latestTime: real, latestUser: Option<Account>)
    requires Scan(done, host) == Leader(time0, user0)
    ensures Scan(done + Probes(user), host) == Leader(latestTime, latestUser)
  {
    ghost var mine := Probes(user);
    ghost var seen := done;
    latestTime, latestUser := time0, user0;
    var j := 0;
    while j < |ProfileFiles|
      invariant 0 <= j <= |ProfileFiles|
      invariant seen == done + mine[..j]
      invariant Scan(seen, host) == Leader(latestTime, latestUser)
    {
      var filePath := PathJoin(user.home, ProfileFiles[j]);
      ProbeAt(user, j);
      ScanSnoc(seen, mine[j], host);
      VisitPath(Leader(latestTime, latestUser), user, filePath, host);
      if filePath in host.present && filePath in host.mtime {
        var mtime := host.mtime[filePath];
        if mtime > latestTime {
          latestTime := mtime;
          latestUser := Some(user);
        }
      }
      PrefixSnoc(done, mine, j);
      seen := seen + [mine[j]];
      j := j + 1;
    }
    assert mine[..|ProfileFiles|] == mine;
  }

  /** `_find_most_recent_user`: both loops of the source, proved to compute the scan. */
  method FindMostRecentUser(users: seq<Account>, host: Host) returns (r: Option<Account>)
    ensures r == Scan(AllProbes(users), host).user
  {
    var latestUser: Option<Account> := None;
    var latestTime := 0.0;
    var i := 0;
    while i < |users|
      invariant 0 <= i <= |users|
      invariant Scan(AllProbes(users[..i]), host) == Leader(latestTime, latestUser)
    {
      latestTime, latestUser := ScanProfiles(users[i], host, AllProbes(users[..i]), latestTime, latestUser);
      AllProbesSnoc(users, i);
      i := i + 1;
    }
    assert users[..|users|] == users;
    r := latestUser;
  }

  /** The entries `get_real_user` accepts as people: uid 1000 or more and an existing home
      directory under /home/. */
  predicate IsReal(pw: Passwd, host: Host) {
    pw.uid >= 1000 && StartsWith(pw.dir, "/home/") && pw.dir in host.present
  }

  /** The accepted entries as `(name, home)` pairs, in database order. */
  function RealUsers(db: seq<Passwd>, host: Host): (r: seq<Account>)
    ensures forall a :: a in r <==> exists pw :: pw in db && IsReal(pw, host) && a == Account(pw.name, pw.dir)
  {
    if db == [] then []
    else
      var pw := db[|db| - 1];
      assert forall p :: p in db <==> p in db[..|db| - 1] || p == pw by {
        assert db == db[..|db| - 1] + [pw];
      }
      RealUsers(db[..|db| - 1], host) + if IsReal(pw, host) then [Account(pw.name, pw.dir)] else []
  }

  /** The choice among the accepted users: a lone user is taken as is, several are settled by
      their profile files, none gives no user. Whoever is chosen is one of them. */
  function Choose(accepted: seq<Account>, host: Host): (r: Option<Account>)
    ensures |accepted| == 0 ==> r.None?
    ensures |accepted| == 1 ==> r == Some(accepted[0])
    ensures r.Some? ==> r.value in accepted
  {
    ScanFindsFirstNewest(AllProbes(accepted), host);
    if |accepted| == 1 then Some(accepted[0])
    else if |accepted| > 1 then Scan(AllProbes(accepted), host).user
    else None
  }

  /** `get_real_user`: the filtering loop of the source, then the choice. */
  method GetRealUser(db: seq<Passwd>, host: Host) returns (r: Option<Account>)
    ensures r == Choose(RealUsers(db, host), host)
  {
    var realUsers: seq<Account> := [];
    var i := 0;
    while i < |db|
      invariant 0 <= i <= |db|
      invariant realUsers == RealUsers(db[..i], host)
    {
      var pw := db[i];
      assert db[..i + 1][..i] == db[..i];
      if pw.uid >= 1000 && StartsWith(pw.dir, "/home/") && pw.dir in host.present {
        realUsers := realUsers + [Account(pw.name, pw.dir)];
      }
      i := i + 1;
    }
    assert db[..|db|] == db;
    if |realUsers| == 1 {
      r := Some(realUsers[0]);
    } else if |realUsers| > 1 {
      r := FindMostRecentUser(realUsers, host);
    } else {
      r := None;
    }
  }

  /** The chosen user is always an accepted one; there is no user exactly when nobody is accepted
      or, with several accepted, none has a profile file with a readable time above 0. */
  lemma ChosenUserIsReal(db: seq<Passwd>, host: Host)
    ensures var accepted := RealUsers(db, host); var r := Choose(accepted, host);
      && (r.Some? ==> exists pw :: pw in db && IsReal(pw, host) && r.value == Account(pw.name, pw.dir))
      && (r.None? <==> |accepted| == 0
                       || (|accepted| > 1 && forall p :: p in AllProbes(accepted) ==> NotAbove(host, p, 0.0)))
  {
    var accepted := RealUsers(db, host);
    if |accepted| > 1 {
      MostRecentUserIsNewest(accepted, host);
    }
    if |accepted| == 1 {
      assert accepted[0] in accepted;
    }
  }
}
