// The superuser password across bootstraps, crashes and reaps of one data
// directory and its password file.

module ClusterPassword {
  import opened Options
  import opened Paths

  const LF: Byte := 10
  const CR: Byte := 13
  const MAX_PASSWORD_FILE_BYTES := 4096

  /** The password file. `Unreadable` is anything the bounded read refuses on sight,
      such as a FIFO or a file without permission. */
  datatype PasswordFile = Absent | Unreadable | Text(bytes: Bytes)

  /** The data directory: the `PG_VERSION` marker, `postgresql.conf`, the relation map
      that the worker looks for, any other files, the password its superuser has by now,
      and whether it is as a finished `initdb` left it. */
  datatype DataDir = DataDir(marker: bool, conf: bool, mapped: bool, others: bool, password: Option<Bytes>, intact: bool)

  datatype Disk = Disk(data: DataDir, file: PasswordFile)

  datatype StoredPassword = Stored(password: Bytes) | Missing | NotReadable | Empty

  datatype Reuse = Reused | ExplicitPassword | NoCluster | ReuseFailed(why: StoredPassword)

  /** Whether setup runs in the worker, and whether the binaries were installed before. */
  datatype Mode = Mode(byWorker: bool, installed: bool)

  /** How a bootstrap ended: it failed or was killed, or a server runs and the
      bootstrap reports a password. */
  datatype Ending = Failed | Running(password: Bytes, created: bool)

  predicate IsEmptyDir(d: DataDir) { !d.marker && !d.conf && !d.mapped && !d.others }

  const EMPTY_DIR := DataDir(false, false, false, false, None, false)

  predicate IsLineEnd(b: Byte) { b == LF || b == CR }

  function TrimLineEnds(s: Bytes): (t: Bytes)
    ensures t <= s && (t != [] ==> !IsLineEnd(t[|t| - 1]))
    ensures forall i :: |t| <= i < |s| ==> IsLineEnd(s[i])
  {
    if s != [] && IsLineEnd(s[|s| - 1]) then TrimLineEnds(s[..|s| - 1]) else s
  }

  function ReadStoredPassword(file: PasswordFile): StoredPassword {
    match file
    case Absent => Missing
    case Unreadable => NotReadable
    case Text(raw) =>
      if |raw| > MAX_PASSWORD_FILE_BYTES then NotReadable
      else if TrimLineEnds(raw) == [] then Empty
      else Stored(TrimLineEnds(raw))
  }

  /** What `initdb --pwfile` takes: the file's first line. */
  function FirstLine(s: Bytes): Bytes {
    if s == [] || IsLineEnd(s[0]) then [] else [s[0]] + FirstLine(s[1..])
  }

  lemma {:induction false} FirstLineHolds(s: Bytes)
    ensures FirstLine(s) <= s && (forall i :: 0 <= i < |FirstLine(s)| ==> FirstLine(s)[i] !in [10, 13])
    ensures |FirstLine(s)| < |s| ==> s[|FirstLine(s)|] in [10, 13]
  {
    if s != [] && !IsLineEnd(s[0]) { FirstLineHolds(s[1..]); }
  }

  /** A password that fits on the password file's one line. */
  predicate IsOneLine(p: Bytes) {
    0 < |p| <= MAX_PASSWORD_FILE_BYTES && forall i :: 0 <= i < |p| ==> !IsLineEnd(p[i])
  }

  /** The stored password is read back as written exactly when it is non-empty, fits
      the cap and does not end in a line end. */
  lemma {:induction false} ReadsBackIff(p: Bytes)
    ensures ReadStoredPassword(Text(p)) == Stored(p) <==>
      0 < |p| <= MAX_PASSWORD_FILE_BYTES && !IsLineEnd(p[|p| - 1])
  {}

  lemma {:induction false} OneLineIsFirstLine(p: Bytes)
    requires forall i :: 0 <= i < |p| ==> !IsLineEnd(p[i])
    ensures FirstLine(p) == p
  {
    if p != [] {
      OneLineIsFirstLine(p[1..]);
    }
  }

  lemma {:induction false} StoredIsFirstLine(raw: Bytes)
    requires forall i :: 0 <= i < |TrimLineEnds(raw)| ==> !IsLineEnd(raw[i])
    ensures FirstLine(raw) == TrimLineEnds(raw)
    decreases |raw|
  {
    var t := TrimLineEnds(raw);
    if t == raw {
      OneLineIsFirstLine(raw);
    } else if t != [] {
      assert !IsLineEnd(raw[0]);
      TrimTail(raw);
      StoredIsFirstLine(raw[1..]);
    }
  }

  lemma {:induction false} TrimTail(raw: Bytes)
    requires TrimLineEnds(raw) != []
    ensures TrimLineEnds(raw[1..]) == TrimLineEnds(raw)[1..]
    decreases |raw|
  {
    if IsLineEnd(raw[|raw| - 1]) && |raw| > 1 {
      TrimTail(raw[..|raw| - 1]);
      assert raw[1..][..|raw[1..]| - 1] == raw[..|raw| - 1][1..];
    }
  }

  // ----- One bootstrap -----

  /** Which password a bootstrap goes on with. */
  function ReuseExisting(d: Disk, isExplicit: bool): Reuse {
    if isExplicit then ExplicitPassword
    else if !d.data.marker then NoCluster
    else if ReadStoredPassword(d.file).Stored? then Reused
    else ReuseFailed(ReadStoredPassword(d.file))
  }

  function SettingsPassword(d: Disk, isExplicit: bool, given: Bytes): Bytes {
    if ReuseExisting(d, isExplicit) == Reused then ReadStoredPassword(d.file).password else given
  }

  /** The disk after the stale password file was discarded. */
  function AfterDiscard(d: Disk): Disk {
    if d.data.marker then d else d.(file := Absent)
  }

  /** PostgreSQL refuses a directory without its version file or its configuration.
      Whether it starts from any other unfinished directory is left open. */
  predicate MayStart(d: DataDir) { d.marker && d.conf }

  /** What is left of a directory whose removal may have been cut short. */
  predicate IsRemains(d: DataDir, d': DataDir) {
    && (d'.marker ==> d.marker) && (d'.conf ==> d.conf) && (d'.mapped ==> d.mapped) && (d'.others ==> d.others)
    && d'.password == d.password
    && (d'.intact ==> d' == d)
  }

  /** The worker takes a marked directory of an installed version as set up. */
  predicate CountsAsSetUp(m: Mode, d: DataDir) { m.byWorker && m.installed && d.marker }

  /** Any other directory that is not empty it removes when there is no relation map. */
  predicate GetsReset(m: Mode, d: DataDir) {
    m.byWorker && !CountsAsSetUp(m, d) && !d.mapped && !IsEmptyDir(d)
  }

  /** What setup and start may leave when they go on with password `p`. */
  ghost predicate SetsUp(m: Mode, d: Disk, p: Bytes, d': Disk, r: Ending) {
    if GetsReset(m, d.data) then
      (d' == d && r == Failed) || Resets(d, p, d', r)
    else
      || (d' == d && (r == Failed || (MayStart(d.data) && r == Running(p, false))))
      || (!d.data.conf && !CountsAsSetUp(m, d.data) && Initializes(d, p, d', r))
  }

  /** The worker removes a directory without a relation map and initializes it anew. */
  ghost predicate Resets(d: Disk, p: Bytes, d': Disk, r: Ending) {
    || (d'.file == d.file && IsRemains(d.data, d'.data) && r == Failed)
    || Initializes(Disk(EMPTY_DIR, d.file), p, d', r)
  }

  /** The password file is written when it is absent, perhaps only in part; then comes
      `initdb`, which refuses a directory that is not empty and a password file whose
      first line is. Otherwise it may be killed
      part way, before or after it sets the password; or fail and clear up; or finish. */
  ghost predicate Initializes(d: Disk, p: Bytes, d': Disk, r: Ending) {
    || (d.file.Absent? && d'.data == d.data && d'.file.Text? && d'.file.bytes <= p && r == Failed)
    || (&& (d'.file == d.file || (d.file.Absent? && d'.file == Text(p)))
        && (|| (d'.data == d.data && r == Failed)
            || (IsEmptyDir(d.data) && d'.file.Text? && FirstLine(d'.file.bytes) != [] &&
                InitdbLeaves(d'.file.bytes, p, d'.data, r))))
  }

  ghost predicate InitdbLeaves(file: Bytes, p: Bytes, d: DataDir, r: Ending) {
    if d.intact then
      d.marker && d.conf && d.mapped && d.password == Some(FirstLine(file)) && (r == Failed || r == Running(p, true))
    else
      (d.password == None || d.password == Some(FirstLine(file))) && r == Failed
  }

  /** One bootstrap, from reading the marker to a running server or an end before it. */
  ghost predicate Boots(m: Mode, d: Disk, isExplicit: bool, given: Bytes, d': Disk, r: Ending) {
    if ReuseExisting(d, isExplicit).ReuseFailed? then
      d' == d && r == Failed
    else
      || (d' == d && r == Failed)
      || SetsUp(m, AfterDiscard(d), SettingsPassword(d, isExplicit, given), d', r)
  }

  /** Reaping removes the data directory, perhaps only in part, and never the file. */
  predicate Reaps(d: Disk, d': Disk) {
    d'.file == d.file && IsRemains(d.data, d'.data)
  }

  /** A full cleanup goes on to the install tree, password file included, even when it
      could remove the data directory only in part. */
  predicate Cleans(d: Disk, d': Disk) {
    (d'.file == d.file || d'.file == Absent) && IsRemains(d.data, d'.data)
  }

  datatype Event = Bootstrap(isExplicit: bool, given: Bytes, mode: Mode, ending: Ending) | Reap | Cleanup

  ghost predicate Next(d: Disk, e: Event, d': Disk) {
    match e
    case Bootstrap(x, given, m, r) => IsOneLine(given) && Boots(m, d, x, given, d', r)
    case Reap => Reaps(d, d')
    case Cleanup => Cleans(d, d')
  }

  // ----- What every step keeps -----

  /** A file that holds one line at most, as a bootstrap writes it. */
  predicate IsCleanFile(file: PasswordFile) {
    file.Text? && |file.bytes| <= MAX_PASSWORD_FILE_BYTES &&
    forall i :: 0 <= i < |TrimLineEnds(file.bytes)| ==> !IsLineEnd(file.bytes[i])
  }

  /** The file holds a password, the cluster's if the cluster has one. */
  predicate HoldsPassword(file: PasswordFile, data: DataDir) {
    && IsCleanFile(file) && ReadStoredPassword(file).Stored?
    && (data.password.Some? ==> data.password.value == ReadStoredPassword(file).password)
  }

  /** The password file of a marked directory, if there is one, holds one line; that of a
      directory which may start holds the password of its cluster. */
  predicate Sound(d: Disk) {
    && (d.data.marker ==> d.file.Absent? || IsCleanFile(d.file))
    && (MayStart(d.data) ==> d.file.Absent? || HoldsPassword(d.file, d.data))
    && (d.data.intact ==> MayStart(d.data) && d.data.mapped && d.data.password.Some?)
  }

  /** Any marked directory has its password on file. */
  predicate Remembers(d: Disk) {
    d.data.marker ==> HoldsPassword(d.file, d.data)
  }

  lemma {:induction false} CleanFileIsFirstLine(file: PasswordFile)
    requires IsCleanFile(file)
    ensures FirstLine(file.bytes) == TrimLineEnds(file.bytes)
  {
    assert forall i :: 0 <= i < |TrimLineEnds(file.bytes)| ==> TrimLineEnds(file.bytes)[i] == file.bytes[i];
    StoredIsFirstLine(file.bytes);
  }

  /** The part of a one-line password that a killed write leaves. */
  lemma {:induction false} PartIsClean(p: Bytes, part: Bytes)
    requires IsOneLine(p) && part <= p
    ensures IsCleanFile(Text(part)) && (part == p ==> HoldsPassword(Text(part), EMPTY_DIR) && TrimLineEnds(part) == p)
  {
    assert forall i :: 0 <= i < |part| ==> part[i] == p[i];
    assert TrimLineEnds(part) <= part;
    ReadsBackIff(p);
  }

  lemma {:induction false} InitializeStaysSound(d: Disk, p: Bytes, d': Disk, r: Ending)
    requires Sound(d) && IsOneLine(p) && Initializes(d, p, d', r) && !d.data.conf
    requires d.file.Absent? || IsCleanFile(d.file)
    ensures Sound(d') && (Remembers(d) ==> Remembers(d'))
    ensures r == Running(p, true) ==>
      && d'.file == (if d.file.Absent? then Text(p) else d.file)
      && d'.data.password == Some(TrimLineEnds(d'.file.bytes)) && TrimLineEnds(d'.file.bytes) != []
  {
    PartIsClean(p, p);
    if d'.file.Text? && d'.file.bytes <= p { PartIsClean(p, d'.file.bytes); }
    if IsCleanFile(d'.file) { CleanFileIsFirstLine(d'.file); }
  }

  /** One bootstrap keeps the disk sound and the password on file. A cluster it created
      has the password of the file that was there, or the one it went on with when there
      was none. */
  lemma {:induction false} BootStaysSound(m: Mode, d: Disk, isExplicit: bool, given: Bytes, d': Disk, r: Ending)
    requires Sound(d) && IsOneLine(given) && Boots(m, d, isExplicit, given, d', r)
    ensures Sound(d') && (Remembers(d) ==> Remembers(d'))
    ensures r.Running? && r.created ==>
      if d.data.marker && !d.file.Absent? then
        GetsReset(m, d.data) && ReadStoredPassword(d.file).Stored? && d'.file == d.file &&
        d'.data.password == Some(ReadStoredPassword(d.file).password)
      else
        d'.file == Text(given) && d'.data.password == Some(given)
    ensures r.Running? && !r.created ==> d' == d && MayStart(d.data) && !GetsReset(m, d.data)
    ensures r.Running? ==> r.password == SettingsPassword(d, isExplicit, given)
  {
    if !(d' == d && r == Failed) {
      var e, p := AfterDiscard(d), SettingsPassword(d, isExplicit, given);
      PartIsClean(given, given);
      assert IsOneLine(p) by { SettingsAreOneLine(d, isExplicit, given); }
      if GetsReset(m, e.data) {
        if Initializes(Disk(EMPTY_DIR, e.file), p, d', r) { InitializeStaysSound(Disk(EMPTY_DIR, e.file), p, d', r); }
      } else if !e.data.conf && Initializes(e, p, d', r) {
        InitializeStaysSound(e, p, d', r);
      }
    }
  }

  lemma {:induction false} SettingsAreOneLine(d: Disk, isExplicit: bool, given: Bytes)
    requires Sound(d) && IsOneLine(given)
    ensures IsOneLine(SettingsPassword(d, isExplicit, given))
  {
    if ReuseExisting(d, isExplicit) == Reused {
      var t := TrimLineEnds(d.file.bytes);
      assert forall i :: 0 <= i < |t| ==> t[i] == d.file.bytes[i];
    }
  }

  lemma {:induction false} NextStaysSound(d: Disk, e: Event, d': Disk)
    requires Sound(d) && Next(d, e, d')
    ensures Sound(d')
  {
    match e
    case Reap =>
    case Cleanup =>
    case Bootstrap(x, given, m, r) => BootStaysSound(m, d, x, given, d', r);
  }

  /** Bootstraps, crashes, resets and reaps keep the password of a marked directory on
      file; only a full cleanup may lose it. */
  lemma {:induction false} NextRemembers(d: Disk, e: Event, d': Disk)
    requires Sound(d) && Remembers(d) && Next(d, e, d') && !e.Cleanup?
    ensures Remembers(d')
  {
    if e.Bootstrap? { BootStaysSound(e.mode, d, e.isExplicit, e.given, d', e.ending); }
  }

  /** The file can be read and holds more than line ends. */
  predicate IsReadable(file: PasswordFile) {
    file.Text? && |file.bytes| <= 4096 && exists i :: 0 <= i < |file.bytes| && file.bytes[i] != 10 && file.bytes[i] != 13
  }

  /** What reading the password file ends with: it is missing only when there is none, and
      empty only when it holds nothing but line ends. */
  lemma {:induction false} ReadableIsStored(file: PasswordFile)
    ensures ReadStoredPassword(file).Stored? <==> IsReadable(file)
    ensures ReadStoredPassword(file).Missing? <==> file.Absent?
    ensures ReadStoredPassword(file).Empty? <==>
      file.Text? && |file.bytes| <= 4096 && forall i :: 0 <= i < |file.bytes| ==> file.bytes[i] in [10, 13]
  {
    if file.Text? {
      var t := TrimLineEnds(file.bytes);
      if t != [] { assert file.bytes[|t| - 1] == t[|t| - 1]; }
    }
  }

  /** Unless it is given a password, a bootstrap of a marked directory whose password file
      is missing, unreadable, too long or empty does nothing at all. A cleanup that lost
      the file is one way there. */
  lemma {:induction false} ForgottenNeedsPassword(d: Disk, e: Event, d': Disk)
    requires d.data.marker && !IsReadable(d.file) && Next(d, e, d') && e.Bootstrap? && !e.isExplicit
    ensures d' == d && e.ending == Failed
  {
    ReadableIsStored(d.file);
  }

  /** A running bootstrap reports what the file of a marked directory holds, less the line
      ends after it, and otherwise the password it was given. */
  lemma {:induction false} ReportsStoredOrGiven(d: Disk, e: Event, d': Disk)
    requires Next(d, e, d') && e.Bootstrap? && e.ending.Running?
    ensures e.isExplicit || !d.data.marker ==> e.ending.password == e.given
    ensures !e.isExplicit && d.data.marker ==>
      && d.file.Text? && e.ending.password <= d.file.bytes && e.ending.password != []
      && e.ending.password[|e.ending.password| - 1] !in [10, 13]
      && forall i :: |e.ending.password| <= i < |d.file.bytes| ==> d.file.bytes[i] in [10, 13]
  {
  }

  /** No bootstrap touches a data directory with a relation map, whatever else it lacks; the
      worker touches none that is marked when its version is installed, nor the password
      file then; and without the worker only an empty directory is ever written to. */
  lemma {:induction false} BootstrapsKeepData(d: Disk, e: Event, d': Disk)
    requires Next(d, e, d') && e.Bootstrap?
    ensures d.data.mapped ==> d'.data == d.data
    ensures e.mode.byWorker && e.mode.installed && d.data.marker ==> d' == d
    ensures !e.mode.byWorker && (d.data.marker || d.data.conf || d.data.others) ==> d'.data == d.data
    ensures e.ending.Running? && e.ending.created ==>
      || d.data == DataDir(false, false, false, false, d.data.password, d.data.intact)
      || (e.mode.byWorker && !(e.mode.installed && d.data.marker) && !d.data.mapped)
  {
  }

  /** A reap or a cleanup only removes; it adds nothing and sets no password. */
  lemma {:induction false} RemovalsOnlyRemove(d: Disk, e: Event, d': Disk)
    requires Next(d, e, d') && !e.Bootstrap?
    ensures d'.data.marker ==> d.data.marker
    ensures d'.data.conf ==> d.data.conf
    ensures d'.data.mapped ==> d.data.mapped
    ensures d'.data.others ==> d.data.others
    ensures d'.data.password == d.data.password
    ensures d'.file == d.file || (e.Cleanup? && d'.file.Absent?)
  {
  }

  // ----- Which reported passwords log in -----

  predicate LogsIn(d: Disk, password: Bytes) { d.data.password == Some(password) }

  /** When a bootstrap leaves a server running, the password it reports logs in exactly
      when the cluster was created now or already had a password, and an explicit
      password, if one was given for a marked directory, is the stored one, or when none
      is stored the cluster's, or the one it was just created with. */
  lemma {:induction false} ReportedPasswordLogsInIff(d: Disk, e: Event, d': Disk)
    requires Sound(d) && Next(d, e, d') && e.Bootstrap? && e.ending.Running?
    ensures LogsIn(d', e.ending.password) <==>
      && (e.ending.created || d.data.password.Some?)
      && (e.isExplicit && d.data.marker ==>
            if d.file.Absent? then e.ending.created || d.data.password == Some(e.given)
            else ReadStoredPassword(d.file) == Stored(e.given))
  {
    BootStaysSound(e.mode, d, e.isExplicit, e.given, d', e.ending);
  }

  /** Whatever it is given, a bootstrap of `d` that is not explicit reports a password
      that logs in. */
  ghost predicate AlwaysLogsIn(m: Mode, d: Disk) {
    forall given, r: Ending, d' ::
      Next(d, Bootstrap(false, given, m, r), d') && r.Running? ==> LogsIn(d', r.password)
  }

  /** That fails for exactly those directories that may start, are not reset and have a
      password on file, but whose `initdb` was killed before it set one. */
  lemma {:induction false} AlwaysLogsInIff(m: Mode, d: Disk)
    requires Sound(d)
    ensures AlwaysLogsIn(m, d) <==>
      (MayStart(d.data) && !GetsReset(m, d.data) && !d.file.Absent? ==> d.data.password.Some?)
  {
    if MayStart(d.data) && !GetsReset(m, d.data) && !d.file.Absent? && d.data.password == None {
      var p := ReadStoredPassword(d.file).password;
      SettingsAreOneLine(d, false, [1]);
      assert SetsUp(m, AfterDiscard(d), SettingsPassword(d, false, p), d, Running(p, false));
      assert Next(d, Bootstrap(false, p, m, Running(p, false)), d);
      assert !LogsIn(d, p);
    } else {
      forall given, r: Ending, d' | Next(d, Bootstrap(false, given, m, r), d') && r.Running?
        ensures LogsIn(d', r.password)
      {
        ReportedPasswordLogsInIff(d, Bootstrap(false, given, m, r), d');
        BootStaysSound(m, d, false, given, d', r);
      }
    }
  }

  /** Whatever it is given, an explicit bootstrap of `d` that creates the cluster reports
      a password that logs in. */
  ghost predicate CreatedLogsIn(m: Mode, d: Disk) {
    forall given, r: Ending, d' ::
      Next(d, Bootstrap(true, given, m, r), d') && r.Running? && r.created ==> LogsIn(d', r.password)
  }

  /** That fails for exactly those marked directories which the worker removes, because
      nothing is installed yet and there is no relation map, while a password is on file:
      `initdb` then takes that one and not the explicit password. */
  lemma {:induction false} CreatedLogsInIff(m: Mode, d: Disk)
    requires Sound(d)
    ensures CreatedLogsIn(m, d) <==>
      !(m.byWorker && !m.installed && d.data.marker && !d.data.mapped && ReadStoredPassword(d.file).Stored?)
  {
    if m.byWorker && !m.installed && d.data.marker && !d.data.mapped && ReadStoredPassword(d.file).Stored? {
      var given: Bytes := if ReadStoredPassword(d.file) == Stored([1]) then [2] else [1];
      CleanFileIsFirstLine(d.file);
      var made := Disk(DataDir(true, true, true, true, Some(FirstLine(d.file.bytes)), true), d.file);
      assert Initializes(Disk(EMPTY_DIR, d.file), given, made, Running(given, true));
      assert Next(d, Bootstrap(true, given, m, Running(given, true)), made);
      ReportedPasswordLogsInIff(d, Bootstrap(true, given, m, Running(given, true)), made);
      assert !LogsIn(made, given);
    } else {
      forall given, r: Ending, d' | Next(d, Bootstrap(true, given, m, r), d') && r.Running? && r.created
        ensures LogsIn(d', r.password)
      {
        BootStaysSound(m, d, true, given, d', r);
      }
    }
  }

  // ----- Every sequence -----

  /** Disks `ds` linked by `es`: bootstraps with crashes anywhere, reaps and cleanups, in
      any order. */
  ghost predicate IsRun(ds: seq<Disk>, es: seq<Event>) {
    && |ds| == |es| + 1 && Sound(ds[0])
    && forall i :: 0 <= i < |es| ==> Next(ds[i], es[i], ds[i + 1])
  }

  lemma {:induction false} RunStaysSound(ds: seq<Disk>, es: seq<Event>, n: nat)
    requires IsRun(ds, es) && n < |ds|
    ensures Sound(ds[n])
  {
    if n > 0 {
      RunStaysSound(ds, es, n - 1);
      NextStaysSound(ds[n - 1], es[n - 1], ds[n]);
    }
  }

  lemma {:induction false} RunRemembers(ds: seq<Disk>, es: seq<Event>, n: nat)
    requires IsRun(ds, es) && n < |ds| && Remembers(ds[0]) && Cleanup !in es
    ensures Remembers(ds[n])
  {
    if n > 0 {
      RunRemembers(ds, es, n - 1);
      RunStaysSound(ds, es, n - 1);
      assert es[n - 1] in es;
      NextRemembers(ds[n - 1], es[n - 1], ds[n]);
    }
  }

  /** Over every sequence, a running bootstrap that is not explicit, or that found no
      marked directory, reports the password that is stored; and it logs in exactly when
      the cluster was created now or its `initdb` had set a password. */
  lemma {:induction false} EveryReportedPasswordLogsIn(ds: seq<Disk>, es: seq<Event>, n: nat)
    requires IsRun(ds, es) && n < |es| && es[n].Bootstrap? && es[n].ending.Running?
    requires !es[n].isExplicit || !ds[n].data.marker
    ensures LogsIn(ds[n + 1], es[n].ending.password) <==> es[n].ending.created || ds[n].data.password.Some?
    ensures ReadStoredPassword(ds[n + 1].file) == Stored(es[n].ending.password)
  {
    RunStaysSound(ds, es, n);
    BootStaysSound(es[n].mode, ds[n], es[n].isExplicit, es[n].given, ds[n + 1], es[n].ending);
    ReportedPasswordLogsInIff(ds[n], es[n], ds[n + 1]);
    ReadsBackIff(es[n].given);
  }

  /** A run whose second bootstrap reports a password that does not log in: `initdb` was
      killed after it wrote the marker and the configuration and before the password. */
  lemma {:induction false} KilledInitdbLosesPassword(p: Bytes, m: Mode)
    requires IsOneLine(p)
    ensures var none, half := Disk(EMPTY_DIR, Absent), Disk(DataDir(true, true, true, true, None, false), Text(p));
      && IsRun([none, half, half], [Bootstrap(false, p, m, Failed), Bootstrap(false, p, m, Running(p, false))])
      && !LogsIn(half, p)
  {
    ReadsBackIff(p);
    OneLineIsFirstLine(p);
    var none, half := Disk(EMPTY_DIR, Absent), Disk(DataDir(true, true, true, true, None, false), Text(p));
    assert Initializes(none, p, half, Failed);
    assert SetsUp(m, half, p, half, Running(p, false));
  }

  // ----- Two directories on one file -----

  /** No bootstrap of a second directory on the same file, however it ends, makes the file
      forget the first cluster's password. */
  ghost predicate KeepsFirst(first: Disk, other: DataDir) {
    forall x, given, m, r, after ::
      Next(Disk(other, first.file), Bootstrap(x, given, m, r), after) ==> HoldsPassword(after.file, first.data)
  }

  /** The pair of directory and file must stay fixed: a second directory on the file is
      harmless exactly when it holds a cluster of its own. */
  lemma {:induction false} KeepsFirstIff(first: Disk, other: DataDir)
    requires HoldsPassword(first.file, first.data)
    ensures KeepsFirst(first, other) <==> other.marker
  {
    if !other.marker {
      var d, after, p: Bytes, m := Disk(other, first.file), Disk(other, Absent), [1], Mode(false, true);
      assert SetsUp(m, AfterDiscard(d), SettingsPassword(d, false, p), after, Failed);
      assert Next(d, Bootstrap(false, p, m, Failed), after);
      assert !HoldsPassword(after.file, first.data);
    }
  }

  /** A bootstrap of an empty second directory that shares the file runs a server and
      leaves the first cluster's password forgotten. */
  lemma {:induction false} SharedPasswordFileForgets(first: Disk, other: DataDir, given: Bytes, m: Mode)
    requires HoldsPassword(first.file, first.data) && first.data.password.Some? && IsEmptyDir(other)
    requires IsOneLine(given) && given != first.data.password.value
    ensures exists after: Disk ::
      Next(Disk(other, first.file), Bootstrap(false, given, m, Running(given, true)), after) &&
      ReadStoredPassword(after.file) == Stored(given) && !HoldsPassword(after.file, first.data)
  {
    OneLineIsFirstLine(given);
    ReadsBackIff(given);
    var d, after := Disk(other, first.file), Disk(DataDir(true, true, true, true, Some(given), true), Text(given));
    assert SetsUp(m, AfterDiscard(d), SettingsPassword(d, false, given), after, Running(given, true));
    assert Next(d, Bootstrap(false, given, m, Running(given, true)), after);
  }

  // ----- The steps of a bootstrap -----

  /** One data directory and its password file on disk. Every method may end early:
      an error or the death of the process leaves what was done so far. */
  class Host {
    var data: DataDir
    var file: PasswordFile

    constructor (data: DataDir, file: PasswordFile)
      ensures this.data == data && this.file == file
    {
      this.data, this.file := data, file;
    }

    ghost function OnDisk(): Disk
      reads this
    {
      Disk(data, file)
    }

    /** Whether the marker is there; `None` when it cannot be probed. */
    method HasClusterMarker() returns (marker: Option<bool>)
      ensures marker.Some? ==> marker.value == data.marker
    {
      if * { return None; }
      return Some(data.marker);
    }

    /** The command half of password reuse: only the settings' password changes. */
    method ReuseExistingPassword(isExplicit: bool, given: Bytes) returns (reuse: Option<Reuse>, password: Bytes)
      ensures reuse.Some? ==> reuse.value == ReuseExisting(OnDisk(), isExplicit)
      ensures password == if reuse.Some? then SettingsPassword(OnDisk(), isExplicit, given) else given
      ensures isExplicit ==> reuse == Some(ExplicitPassword) && password == given
      ensures !isExplicit && data.marker && !IsReadable(file) ==> reuse == None || reuse.value.ReuseFailed?
      ensures !isExplicit && data.marker && IsReadable(file) ==> reuse == None || reuse == Some(Reused)
      ensures !isExplicit && !data.marker ==> reuse == None || reuse == Some(NoCluster)
    {
      ReadableIsStored(file);
      password := given;
      if isExplicit { return Some(ExplicitPassword), password; }
      var marker := HasClusterMarker();
      match marker {
        case None => return None, password;
        case Some(false) => return Some(NoCluster), password;
        case Some(true) =>
          match ReadStoredPassword(file) {
            case Stored(stored) => return Some(Reused), stored;
            case why => return Some(ReuseFailed(why)), password;
          }
      }
    }

    /** Removes the password file when the data directory holds no cluster. */
    method DiscardOrphanedPasswordFile() returns (ok: bool)
      modifies this
      ensures OnDisk() == if ok then AfterDiscard(old(OnDisk())) else old(OnDisk())
    {
      var marker := HasClusterMarker();
      if marker == None { return false; }
      if marker.value { return true; }
      if * { return false; }
      file := Absent;
      return true;
    }

    /** The worker's check before setup: a directory that is not empty and has no relation
        map is removed, perhaps only in part. */
    method RecoverInvalidDataDir() returns (ok: bool)
      modifies this
      ensures file == old(file)
      ensures old(data).mapped || IsEmptyDir(old(data)) ==> ok && data == old(data)
      ensures !old(data).mapped && !IsEmptyDir(old(data)) ==> if ok then data == EMPTY_DIR else IsRemains(old(data), data)
    {
      if data.mapped || IsEmptyDir(data) { return true; }
      if * {
        var marker, conf, others: bool := *, *, *;
        data := DataDir(data.marker && marker, data.conf && conf, false, data.others && others, data.password, false);
        return false;
      }
      data := EMPTY_DIR;
      return true;
    }

    /** `initdb`, given the password file. */
    method RunInitdb() returns (ok: bool)
      modifies this
      ensures file == old(file)
      ensures ok || data != old(data) ==> IsEmptyDir(old(data)) && file.Text? && FirstLine(file.bytes) != []
      ensures ok || data != old(data) ==> forall p :: InitdbLeaves(file.bytes, p, data, Failed)
      ensures ok ==> data.intact && forall p :: InitdbLeaves(file.bytes, p, data, Running(p, true))
    {
      if !IsEmptyDir(data) || !file.Text? || FirstLine(file.bytes) == [] { return false; }
      if * {
        // It failed and cleared up after itself.
        return false;
      }
      // The password is set only after the configuration was written.
      var marker, conf, mapped: bool := *, *, *;
      data := DataDir(marker, conf, mapped, true, None, false);
      if * { return false; }
      data := DataDir(true, true, true, true, Some(FirstLine(file.bytes)), false);
      if * { return false; }
      data := data.(intact := true);
      return true;
    }

    /** Writes the password file only if it is absent, then initializes from it. */
    method Initialize(password: Bytes) returns (ok: bool, created: bool)
      modifies this
      ensures ok && !created ==> OnDisk() == old(OnDisk()) && data.conf
      ensures created ==> ok && !old(data).conf && MayStart(data)
      ensures old(data).conf ==> ok && !created
      ensures !old(data).conf ==> Initializes(old(OnDisk()), password, OnDisk(), Failed)
      ensures created ==> Initializes(old(OnDisk()), password, OnDisk(), Running(password, true))
    {
      if data.conf { return true, false; }
      if file.Absent? {
        if * { return false, false; }
        file := Text([]);
        while file != Text(password)
          invariant file.Text? && file.bytes <= password && data == old(data)
          decreases |password| - |file.bytes|
        {
          if * { return false, false; }
          var more: nat :| |file.bytes| < more <= |password|;
          file := Text(password[..more]);
        }
      }
      ok := RunInitdb();
      created := ok;
      assert created ==> InitdbLeaves(file.bytes, password, data, Running(password, true));
    }

    /** Setup: the worker takes a marked directory of an installed version as set up, and
        otherwise checks the directory first; in process there is no such check. */
    method Setup(password: Bytes, m: Mode) returns (ok: bool, created: bool)
      modifies this
      ensures SetsUp(m, old(OnDisk()), password, OnDisk(), Failed)
      ensures created ==> ok && SetsUp(m, old(OnDisk()), password, OnDisk(), Running(password, true)) && MayStart(data)
      ensures ok && !created ==> OnDisk() == old(OnDisk()) && !GetsReset(m, data)
    {
      if m.byWorker {
        if m.installed && data.marker { return true, false; }
        ok := RecoverInvalidDataDir();
        if !ok { return false, false; }
      }
      ok, created := Initialize(password);
    }

    /** The end of a full cleanup: the data directory and then the install tree, which holds
        the password file of a cluster without a slot. A failed removal is passed over. */
    method CleanUp(isFileInTree: bool)
      modifies this
      ensures Cleans(old(OnDisk()), OnDisk())
      ensures !isFileInTree ==> file == old(file)
    {
      var keeps := *;
      if keeps {
        var marker, conf, mapped, others: bool := *, *, *, *;
        var intact := data.intact && (data.marker ==> marker) && (data.conf ==> conf) && (data.mapped ==> mapped) &&
          (data.others ==> others);
        data := DataDir(data.marker && marker, data.conf && conf, data.mapped && mapped, data.others && others,
                        data.password, intact);
      } else {
        data := EMPTY_DIR.(password := data.password);
      }
      if isFileInTree {
        var removed := *;
        if removed { file := Absent; }
      }
    }

    /** One bootstrap of this data directory up to a running server. */
    method Bootstrap(isExplicit: bool, given: Bytes, m: Mode) returns (r: Ending)
      requires Sound(OnDisk()) && IsOneLine(given)
      modifies this
      ensures Boots(m, old(OnDisk()), isExplicit, given, OnDisk(), r) && Sound(OnDisk())
      ensures !isExplicit && old(data).marker && !IsReadable(old(file)) ==> OnDisk() == old(OnDisk()) && r == Failed
    {
      ghost var before := OnDisk();
      r := BootstrapSteps(isExplicit, given, m);
      NextStaysSound(before, Event.Bootstrap(isExplicit, given, m, r), OnDisk());
      ReadableIsStored(before.file);
    }

    method BootstrapSteps(isExplicit: bool, given: Bytes, m: Mode) returns (r: Ending)
      modifies this
      ensures Boots(m, old(OnDisk()), isExplicit, given, OnDisk(), r)
    {
      var reuse, password := ReuseExistingPassword(isExplicit, given);
      if reuse == None || reuse.value.ReuseFailed? { return Failed; }
      var discarded := DiscardOrphanedPasswordFile();
      if !discarded { return Failed; }
      var ok, created := Setup(password, m);
      if !ok || !MayStart(data) { return Failed; }
      if * { return Failed; }
      return Running(password, created);
    }
  }
}
