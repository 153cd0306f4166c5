/** Credential rotation of internal/agent/credentials.go: write aside, keep the previous file as a
    backup, rename, remove the backup; and recovery when the next process loads.

    Renames are atomic and ordered. Every durable state is kept in `past`; a crash leaves one of them.
    Any file operation may fail, except where a contract says otherwise.
  */
module Credentials {
  import opened Common

  /** The expiry is counted from the zero time, which stands for "not set". */
  datatype Credential = Credential(agentID: string, refreshToken: string, expiresAt: int)

  /** A file holds a credential that readCredentialFile accepts, or something it does not. */
  datatype Content = Whole(credential: Credential) | Garbage

  /** The credential file, its backup, and the temporary file of a write in progress. */
  datatype Files = Files(current: Option<Content>, backup: Option<Content>, temp: Option<Content>)

  predicate WellFormed(c: Credential) {
    c.agentID != "" && c.refreshToken != "" && c.expiresAt != 0
  }

  /** Before a write: the previous credential whole, or none yet, and no backup. */
  ghost predicate Settled(f: Files, previous: Option<Credential>) {
    f.backup.None? && f.current == if previous.Some? then Some(Whole(previous.value)) else None
  }

  /** A state in which nothing is lost: the previous credential is whole at its place or at the
      backup's, or the next one is whole at its place. */
  ghost predicate CrashSafe(f: Files, previous: Option<Credential>, next: Credential) {
    || Settled(f, previous)
    || (f.current == Some(Whole(next)) && f.backup.None?)
    || (previous.Some? && f.backup == Some(Whole(previous.value)) && (f.current.None? || f.current == Some(Whole(next))))
  }

  /** What the loading process knows: the identities it insists on, and the time. */
  datatype Loader = Loader(configuredID: Option<string>, discoveredID: Option<string>, now: int)

  /** validateCredential. */
  predicate Accepts(m: Loader, c: Credential) {
    && (m.configuredID.Some? ==> c.agentID == m.configuredID.value)
    && (m.discoveredID.Some? ==> c.agentID == m.discoveredID.value)
    && c.expiresAt > m.now
  }

  predicate Usable(m: Loader, f: Option<Content>) {
    f.Some? && f.value.Whole? && Accepts(m, f.value.credential)
  }

  datatype Loaded = Use(credential: Credential) | Enroll | Failed

  /** The current file's credential if acceptable, else the backup's; enrollment only if neither
      file exists. */
  function Pick(m: Loader, f: Files, canEnroll: bool): Loaded {
    if Usable(m, f.current) then Use(f.current.value.credential)
    else if Usable(m, f.backup) then Use(f.backup.value.credential)
    else if f.current.None? && f.backup.None? && canEnroll then Enroll
    else Failed
  }

  /** Every identity the loader insists on is this one. */
  ghost predicate Identifies(m: Loader, agentID: string) {
    (m.configuredID == None || m.configuredID == Some(agentID)) && (m.discoveredID == None || m.discoveredID == Some(agentID))
  }

  /** The credential names the agent and has not expired. */
  ghost predicate Good(m: Loader, c: Credential) {
    Identifies(m, c.agentID) && c.expiresAt > m.now
  }

  /** What is picked, in terms of the files. A good current credential is used; failing that, a good
      backup; enrollment is for an agent that has neither file and may enroll; and anything else is an
      error. */
  lemma PickMeans(m: Loader, f: Files, canEnroll: bool)
    ensures match Pick(m, f, canEnroll)
            case Use(c) =>
              && Good(m, c)
              && (f.current == Some(Whole(c)) || (f.backup == Some(Whole(c)) && !HoldsGood(m, f.current)))
            case Enroll => f.current == None && f.backup == None && canEnroll
            case Failed => !HoldsGood(m, f.current) && !HoldsGood(m, f.backup) && !(f.current == None && f.backup == None && canEnroll)
  {
  }

  ghost predicate HoldsGood(m: Loader, f: Option<Content>) {
    exists c :: f == Some(Whole(c)) && Good(m, c)
  }

  /** validateCredential, test by test. */
  method Validate(m: Loader, c: Credential) returns (ok: bool)
    ensures ok <==> Accepts(m, c)
  {
    if m.configuredID.Some? && c.agentID != m.configuredID.value {
      return false;
    }
    if m.discoveredID.Some? && c.agentID != m.discoveredID.value {
      return false;
    }
    if c.expiresAt <= m.now {
      return false;
    }
    return true;
  }

  class CredentialStore {
    var files: Files
    ghost var past: seq<Files>

    constructor (files: Files)
      ensures this.files == files && past == [files]
    {
      this.files, past := files, [files];
    }

    ghost predicate AllSafe(previous: Option<Credential>, next: Credential)
      reads this
    {
      CrashSafe(files, previous, next) && forall i :: 0 <= i < |past| ==> CrashSafe(past[i], previous, next)
    }

    method Commit(f: Files)
      modifies this
      ensures files == f && past == old(past) + [f]
    {
      files := f;
      past := past + [f];
    }

    /** writeCredentialFile, with no operation failing (`works`) or any of them. However it ends and
        wherever it is cut off, nothing is lost; success means the new credential is in place with no
        backup left; a backup found at the start refuses the write without touching either file; and
        nothing but a backup, a malformed credential or a failing operation refuses it. If the backup
        can be put back (`restores`), a write that fails leaves a whole credential in place. */
    method Write(next: Credential, works: bool, restores: bool, ghost previous: Option<Credential>) returns (ok: bool)
      requires AllSafe(previous, next)
      requires Settled(files, previous) || files.backup.Some?
      modifies this
      ensures AllSafe(previous, next) && old(past) <= past
      ensures ok ==> WellFormed(next) && files.current == Some(Whole(next)) && files.backup.None?
      ensures old(files).backup.Some? ==> !ok && files.current == old(files).current && files.backup == old(files).backup
      ensures works ==>
                (ok <==> next.agentID != "" && next.refreshToken != "" && next.expiresAt != 0 && old(files).backup.None?)
      ensures restores && previous.Some? && old(files).backup.None? ==>
                files.current == Some(Whole(previous.value)) || files.current == Some(Whole(next))
    {
      if !WellFormed(next) {
        return false;
      }
      ok := Performed(works);
      if !ok {
        return;
      }
      Commit(files.(temp := Some(Garbage)));
      ok := Replace(next, works, restores, previous);
      var removed := Performed(works);
      if removed {
        Commit(files.(temp := None));
      }
    }

    /** From the check for a leftover backup to the end of the rotation. */
    method Replace(next: Credential, works: bool, restores: bool, ghost previous: Option<Credential>) returns (ok: bool)
      requires AllSafe(previous, next)
      requires Settled(files, previous) || files.backup.Some?
      modifies this
      ensures AllSafe(previous, next) && old(past) <= past
      ensures ok ==> files.current == Some(Whole(next)) && files.backup.None?
      ensures old(files).backup.Some? ==> !ok && files == old(files)
      ensures works && old(files).backup.None? ==> ok
      ensures restores && previous.Some? && old(files).backup.None? ==>
                files.current == Some(Whole(previous.value)) || files.current == Some(Whole(next))
    {
      if files.backup.Some? {
        return false;
      }
      ok := Performed(works);
      if !ok {
        return;
      }
      Commit(files.(temp := Some(Whole(next))));
      var hadPrevious := files.current.Some?;
      if hadPrevious {
        ok := Performed(works);
        if !ok {
          return;
        }
        Commit(files.(current := None, backup := files.current));
      }
      ok := Install(next, works, restores, previous, hadPrevious);
      if !ok || !hadPrevious {
        return;
      }
      ok := Performed(works);
      if !ok {
        return;
      }
      Commit(files.(backup := None));
      ok := Performed(works);
    }

    /** Renaming the temporary file into place and making it durable, or putting the backup back. */
    method Install(next: Credential, works: bool, restores: bool, ghost previous: Option<Credential>, hadPrevious: bool) returns (ok: bool)
      requires AllSafe(previous, next) && files.current.None? && files.temp == Some(Whole(next))
      requires hadPrevious <==> previous.Some?
      requires hadPrevious <==> files.backup.Some?
      modifies this
      ensures AllSafe(previous, next) && old(past) <= past
      ensures ok ==> files.current == Some(Whole(next)) && files.backup == old(files).backup
      ensures works ==> ok
      ensures !ok && restores && previous.Some? ==> Settled(files, previous)
    {
      var renamed := Performed(works);
      if !renamed {
        RestoreBackup(restores, previous, next, hadPrevious);
        return false;
      }
      Commit(files.(current := files.temp, temp := None));
      ok := Performed(works);
      if !ok {
        RestoreBackup(restores, previous, next, hadPrevious);
      }
    }

    /** Best effort: the backup is renamed over whatever is in place. */
    method RestoreBackup(restores: bool, ghost previous: Option<Credential>, ghost next: Credential, hadPrevious: bool)
      requires AllSafe(previous, next) && (hadPrevious ==> files.backup.Some?)
      modifies this
      ensures AllSafe(previous, next) && old(past) <= past
      ensures restores && hadPrevious ==> files.current == old(files).backup && files.backup.None?
    {
      var restored := Performed(restores);
      if hadPrevious && restored {
        Commit(files.(current := files.backup, backup := None));
      }
    }

    /** loadRefreshCredential, with no operation failing (`works`) or any of them. A load that is
        itself cut off anywhere leaves nothing lost. When nothing fails, no backup is left to refuse
        the next write, and a credential is used if and only if one of the two files holds one this
        loader accepts: the current file's if it is acceptable, else the backup's. */
    method Load(m: Loader, canEnroll: bool, works: bool, ghost previous: Option<Credential>, ghost next: Credential)
      returns (r: Loaded)
      requires AllSafe(previous, next)
      modifies this
      ensures AllSafe(previous, next) && old(past) <= past
      ensures r.Use? ==> Accepts(m, r.credential) && files.current == Some(Whole(r.credential)) && files.backup.None?
      ensures r.Use? ==> r.credential == next || Some(r.credential) == previous
      ensures r.Use? ==> Good(m, r.credential)
      ensures works && HoldsGood(m, old(files).current) ==> r.Use? && old(files).current == Some(Whole(r.credential))
      ensures works ==> (r == Enroll <==> old(files).current == None && old(files).backup == None && canEnroll)
      ensures works ==> files.backup.None?
      ensures works ==> r == Pick(m, old(files), canEnroll)
    {
      var current := if files.current.Some? then files.current.value else Garbage;
      var usable := false;
      if current.Whole? {
        usable := Validate(m, current.credential);
      }
      if usable {
        var c := current.credential;
        if files.backup.Some? {
          var removed := Performed(works);
          if !removed {
            return Failed;
          }
          Commit(files.(backup := None));
          var synced := Performed(works);
          if !synced {
            return Failed;
          }
        }
        return Use(c);
      }
      if files.backup.Some? && files.backup.value.Whole? {
        var c := files.backup.value.credential;
        if files.current.Some? {
          var removed := Performed(works);
          if !removed {
            return Failed;
          }
          Commit(files.(current := None));
        }
        var renamed := Performed(works);
        if !renamed {
          return Failed;
        }
        Commit(files.(current := files.backup, backup := None));
        var synced := Performed(works);
        if !synced {
          return Failed;
        }
        var acceptable := Validate(m, c);
        return if acceptable then Use(c) else Failed;
      }
      if files.backup.Some? {
        return Failed;
      }
      return if files.current.None? && canEnroll then Enroll else Failed;
    }
  }

  /** A crash in any state of a rotation, then a load in a new process: the complete previous or the
      complete next credential is recovered, unless the loader refuses what it picks. */
  method CrashAndLoad(crashed: CredentialStore, f: Files, ghost i: nat, ghost previous: Option<Credential>, ghost next: Credential,
                      m: Loader, canEnroll: bool)
    returns (s: CredentialStore, r: Loaded)
    requires crashed.AllSafe(previous, next) && previous.Some? && i < |crashed.past| && f == crashed.past[i]
    ensures s.files.backup.None? && !r.Enroll?
    ensures r.Use? ==> s.files.current == Some(Whole(r.credential))
    ensures r.Use? ==> r.credential == next || r.credential == previous.value
    ensures Accepts(m, previous.value) && Accepts(m, next) ==> r.Use?
    ensures Accepts(m, previous.value) && f.current != Some(Whole(next)) ==> r == Use(previous.value)
    ensures Accepts(m, next) && f.current == Some(Whole(next)) ==> r == Use(next)
  {
    s := new CredentialStore(f);
    r := s.Load(m, canEnroll, true, previous, next);
  }

  /** After such a recovery rotation goes on: the next write is not refused. */
  method RecoverAndRotate(crashed: CredentialStore, f: Files, ghost i: nat, ghost previous: Option<Credential>, ghost next: Credential,
                          m: Loader, third: Credential)
    returns (s: CredentialStore, ok: bool)
    requires crashed.AllSafe(previous, next) && previous.Some? && i < |crashed.past| && f == crashed.past[i]
    requires Accepts(m, previous.value) && Accepts(m, next) && WellFormed(third)
    ensures ok && s.files.current == Some(Whole(third)) && s.files.backup.None?
  {
    var loaded, r := CrashAndLoad(crashed, f, i, previous, next, m, false);
    s := new CredentialStore(loaded.files);
    ok := s.Write(third, true, true, Some(r.credential));
  }
}
