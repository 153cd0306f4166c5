/** Permissions and the bit set that holds them (internal/authz/catalogue.go and set.go). */
module Permissions {

  const SIZE: nat := 26

  /** folderScopableCount: the first entries may be granted on a folder. */
  const FOLDER_SCOPABLE: nat := 9

  /** A permission name: one of the catalogue, by its position there, or any other. */
  datatype Permission = Listed(position: nat) | Unlisted(name: string)

  const JOB_READ := Listed(0)
  const JOB_CONFIGURE := Listed(1)
  const JOB_DELETE := Listed(2)
  const RUN_TRIGGER := Listed(3)
  const RUN_REPLAY := Listed(4)
  const RUN_CANCEL := Listed(5)
  const RUN_DELETE := Listed(6)
  const RUN_APPROVE := Listed(7)
  const SCHEDULE_CONFIGURE := Listed(8)
  const SECRET_LIST := Listed(9)
  const SECRET_WRITE := Listed(10)
  const GIT_CREDENTIAL_READ := Listed(11)
  const GIT_CREDENTIAL_WRITE := Listed(12)
  const VARS_READ := Listed(13)
  const VARS_WRITE := Listed(14)
  const WEBHOOK_READ := Listed(15)
  const WEBHOOK_WRITE := Listed(16)
  const APP_SOURCE_READ := Listed(17)
  const APP_SOURCE_WRITE := Listed(18)
  const AGENT_READ := Listed(19)
  const AGENT_MANAGE := Listed(20)
  const TOKEN_CREATE := Listed(21)
  const TOKEN_MANAGE := Listed(22)
  const AUDIT_READ := Listed(23)
  const AUTHZ_READ := Listed(24)
  const AGENT_ENROLL := Listed(25)

  /** The dotted name, by the position in the catalogue. */
  function Dotted(p: Permission): string {
    match p
    case Listed(0) => "job.read"
    case Listed(1) => "job.configure"
    case Listed(2) => "job.delete"
    case Listed(3) => "run.trigger"
    case Listed(4) => "run.replay"
    case Listed(5) => "run.cancel"
    case Listed(6) => "run.delete"
    case Listed(7) => "run.approve"
    case Listed(8) => "schedule.configure"
    case Listed(9) => "secret.list"
    case Listed(10) => "secret.write"
    case Listed(11) => "gitcredential.read"
    case Listed(12) => "gitcredential.write"
    case Listed(13) => "vars.read"
    case Listed(14) => "vars.write"
    case Listed(15) => "webhook.read"
    case Listed(16) => "webhook.write"
    case Listed(17) => "appsource.read"
    case Listed(18) => "appsource.write"
    case Listed(19) => "agent.read"
    case Listed(20) => "agent.manage"
    case Listed(21) => "token.create"
    case Listed(22) => "token.manage"
    case Listed(23) => "audit.read"
    case Listed(24) => "authz.read"
    case Listed(25) => "agent.enroll"
    case Listed(_) => ""
    case Unlisted(name) => name
  }

  /** Which permission has which name. */
  lemma FolderScopableNames()
    ensures Dotted(JOB_READ) == "job.read"
    ensures Dotted(JOB_CONFIGURE) == "job.configure"
    ensures Dotted(JOB_DELETE) == "job.delete"
    ensures Dotted(RUN_TRIGGER) == "run.trigger"
    ensures Dotted(RUN_REPLAY) == "run.replay"
    ensures Dotted(RUN_CANCEL) == "run.cancel"
    ensures Dotted(RUN_DELETE) == "run.delete"
    ensures Dotted(RUN_APPROVE) == "run.approve"
    ensures Dotted(SCHEDULE_CONFIGURE) == "schedule.configure"
  {
  }

  lemma SecretToWebhookNames()
    ensures Dotted(SECRET_LIST) == "secret.list"
    ensures Dotted(SECRET_WRITE) == "secret.write"
    ensures Dotted(GIT_CREDENTIAL_READ) == "gitcredential.read"
    ensures Dotted(GIT_CREDENTIAL_WRITE) == "gitcredential.write"
    ensures Dotted(VARS_READ) == "vars.read"
    ensures Dotted(VARS_WRITE) == "vars.write"
    ensures Dotted(WEBHOOK_READ) == "webhook.read"
    ensures Dotted(WEBHOOK_WRITE) == "webhook.write"
  {
  }

  lemma AppSourceToAgentNames()
    ensures Dotted(APP_SOURCE_READ) == "appsource.read"
    ensures Dotted(APP_SOURCE_WRITE) == "appsource.write"
    ensures Dotted(AGENT_READ) == "agent.read"
    ensures Dotted(AGENT_MANAGE) == "agent.manage"
    ensures Dotted(TOKEN_CREATE) == "token.create"
    ensures Dotted(TOKEN_MANAGE) == "token.manage"
    ensures Dotted(AUDIT_READ) == "audit.read"
    ensures Dotted(AUTHZ_READ) == "authz.read"
    ensures Dotted(AGENT_ENROLL) == "agent.enroll"
  {
  }

  /** bitOf: the position in the catalogue, or -1. */
  function BitOf(p: Permission): int {
    if p.Listed? && p.position < SIZE then p.position else -1
  }

  predicate Known(p: Permission) {
    BitOf(p) >= 0
  }

  predicate FolderScopable(p: Permission) {
    0 <= BitOf(p) < FOLDER_SCOPABLE
  }

  /** The nine that may be granted on a folder are those about jobs, runs and schedules. */
  lemma FolderScopableAre(p: Permission)
    ensures FolderScopable(p) <==>
            p in {JOB_READ, JOB_CONFIGURE, JOB_DELETE, RUN_TRIGGER, RUN_REPLAY, RUN_CANCEL, RUN_DELETE, RUN_APPROVE, SCHEDULE_CONFIGURE}
  {
    if FolderScopable(p) {
      assert p == Listed(p.position);
    }
  }

  /** The permissions a set holds by position: the value of the uint32, bit i for position i. */
  type Set = nat

  /** Bit i of s. */
  predicate BitAt(s: nat, i: nat)
    decreases i
  {
    if i == 0 then s % 2 == 1 else BitAt(s / 2, i - 1)
  }

  /** 1 << i. */
  function One(i: nat): (r: nat)
    ensures r > 0
  {
    if i == 0 then 1 else 2 * One(i - 1)
  }

  /** The bitwise operators of the source, on the values of the words. */
  function Or(s: nat, o: nat): nat
    decreases s + o
  {
    if s == 0 || o == 0 then s + o
    else 2 * Or(s / 2, o / 2) + if s % 2 == 1 || o % 2 == 1 then 1 else 0
  }

  function And(s: nat, o: nat): nat
    decreases s + o
  {
    if s == 0 || o == 0 then 0
    else 2 * And(s / 2, o / 2) + if s % 2 == 1 && o % 2 == 1 then 1 else 0
  }

  lemma {:induction false} NoBits(i: nat)
    ensures !BitAt(0, i)
  {
    if i > 0 {
      NoBits(i - 1);
    }
  }

  lemma {:induction false} OrBits(s: nat, o: nat, i: nat)
    ensures BitAt(Or(s, o), i) <==> BitAt(s, i) || BitAt(o, i)
    decreases i
  {
    NoBits(i);
    if s != 0 && o != 0 && i > 0 {
      OrBits(s / 2, o / 2, i - 1);
    }
  }

  lemma {:induction false} AndBits(s: nat, o: nat, i: nat)
    ensures BitAt(And(s, o), i) <==> BitAt(s, i) && BitAt(o, i)
    decreases i
  {
    NoBits(i);
    if s != 0 && o != 0 && i > 0 {
      AndBits(s / 2, o / 2, i - 1);
    }
  }

  lemma {:induction false} OneBits(n: nat, i: nat)
    ensures BitAt(One(n), i) <==> i == n
  {
    if n == 0 && i > 0 {
      NoBits(i - 1);
    } else if n > 0 && i > 0 {
      OneBits(n - 1, i - 1);
    }
  }

  /** (1 << n) - 1 has exactly the first n bits. */
  lemma {:induction false} MaskBits(n: nat, i: nat)
    ensures BitAt(One(n) - 1, i) <==> i < n
  {
    if n == 0 {
      NoBits(i);
    } else if i > 0 {
      assert (One(n) - 1) / 2 == One(n - 1) - 1;
      MaskBits(n - 1, i - 1);
    }
  }

  /** Two words with the same bits are the same. */
  lemma {:induction false} SameBits(s: nat, o: nat)
    requires forall i: nat :: BitAt(s, i) <==> BitAt(o, i)
    ensures s == o
    decreases s + o
  {
    assert BitAt(s, 0) <==> BitAt(o, 0);
    if s + o > 0 {
      forall i: nat
        ensures BitAt(s / 2, i) <==> BitAt(o / 2, i)
      {
        assert BitAt(s, i + 1) <==> BitAt(o, i + 1);
      }
      SameBits(s / 2, o / 2);
    }
  }

  lemma {:induction false} HighBits(s: nat, n: nat, i: nat)
    requires s < One(n) && i >= n
    ensures !BitAt(s, i)
  {
    if n == 0 {
      NoBits(i);
    } else {
      HighBits(s / 2, n - 1, i - 1);
    }
  }

  /** Words of n bits stay words of n bits: 26 permissions never reach the end of a uint32. */
  lemma {:induction false} OrFits(s: nat, o: nat, n: nat)
    requires s < One(n) && o < One(n)
    ensures Or(s, o) < One(n)
    decreases n
  {
    if s != 0 && o != 0 {
      OrFits(s / 2, o / 2, n - 1);
    }
  }

  lemma {:induction false} AndFits(s: nat, o: nat, n: nat)
    requires s < One(n)
    ensures And(s, o) < One(n)
    decreases n
  {
    if s != 0 && o != 0 {
      AndFits(s / 2, o / 2, n - 1);
    }
  }

  // ---------------------------------------------------------------------------------------
  // Set
  // ---------------------------------------------------------------------------------------

  function AllSet(): Set { One(SIZE) - 1 }

  /** Only catalogue bits are set. */
  predicate InCatalogue(s: Set) {
    s < One(SIZE)
  }

  /** Set.Has: an unknown permission is never held. */
  predicate Has(s: Set, p: Permission) {
    var i := BitOf(p);
    i >= 0 && And(s, One(i)) != 0
  }

  function Union(s: Set, o: Set): Set { Or(s, o) }

  function Intersect(s: Set, o: Set): Set { And(s, o) }

  function FolderPart(s: Set): Set { And(s, One(FOLDER_SCOPABLE) - 1) }

  /** Set.With for one permission; an unknown one is ignored. */
  function With(s: Set, p: Permission): Set {
    var i := BitOf(p);
    if i >= 0 then Or(s, One(i)) else s
  }

  lemma HasIsBit(s: Set, p: Permission)
    ensures Has(s, p) <==> Known(p) && BitAt(s, BitOf(p))
  {
    if Known(p) {
      MaskIsBit(s, BitOf(p));
    }
  }

  lemma {:induction false} MaskIsBit(s: nat, i: nat)
    ensures And(s, One(i)) != 0 <==> BitAt(s, i)
    decreases i
  {
    NoBits(i);
    if s != 0 && i > 0 {
      MaskIsBit(s / 2, i - 1);
    } else if s != 0 {
      assert And(s / 2, 0) == 0;
    }
  }

  // The bit operations are the set operations.

  lemma HasUnion(s: Set, o: Set, p: Permission)
    ensures Has(Union(s, o), p) <==> Has(s, p) || Has(o, p)
  {
    HasIsBit(s, p);
    HasIsBit(o, p);
    HasIsBit(Union(s, o), p);
    if Known(p) {
      OrBits(s, o, BitOf(p));
    }
  }

  lemma HasIntersect(s: Set, o: Set, p: Permission)
    ensures Has(Intersect(s, o), p) <==> Has(s, p) && Has(o, p)
  {
    HasIsBit(s, p);
    HasIsBit(o, p);
    HasIsBit(Intersect(s, o), p);
    if Known(p) {
      AndBits(s, o, BitOf(p));
    }
  }

  lemma HasFolderPart(s: Set, p: Permission)
    ensures Has(FolderPart(s), p) <==> Has(s, p) && FolderScopable(p)
  {
    HasIsBit(s, p);
    HasIsBit(FolderPart(s), p);
    if Known(p) {
      AndBits(s, One(FOLDER_SCOPABLE) - 1, BitOf(p));
      MaskBits(FOLDER_SCOPABLE, BitOf(p));
    }
  }

  lemma OrOneBits(s: nat, n: nat, i: nat)
    ensures BitAt(Or(s, One(n)), i) <==> BitAt(s, i) || i == n
  {
    OrBits(s, One(n), i);
    OneBits(n, i);
  }

  lemma HasWith(s: Set, q: Permission, p: Permission)
    ensures Has(With(s, q), p) <==> Has(s, p) || (p == q && Known(q))
  {
    if Known(q) {
      HasIsBit(s, p);
      HasIsBit(With(s, q), p);
      if Known(p) {
        OrOneBits(s, BitOf(q), BitOf(p));
      }
    }
  }

  lemma HasNothing(p: Permission)
    ensures !Has(0, p)
  {
  }

  lemma HasAll(p: Permission)
    ensures Has(AllSet(), p) <==> Known(p)
  {
    HasIsBit(AllSet(), p);
    if Known(p) {
      MaskBits(SIZE, BitOf(p));
    }
  }

  /** A set of catalogue permissions is decided by what it has; in particular it is 0 exactly when it
      has nothing. */
  lemma Extensional(s: Set, o: Set)
    requires InCatalogue(s) && InCatalogue(o)
    requires forall p :: Has(s, p) <==> Has(o, p)
    ensures s == o
  {
    forall i: nat
      ensures BitAt(s, i) <==> BitAt(o, i)
    {
      if i < SIZE {
        HasIsBit(s, Listed(i));
        HasIsBit(o, Listed(i));
        assert Has(s, Listed(i)) <==> Has(o, Listed(i));
      } else {
        HighBits(s, SIZE, i);
        HighBits(o, SIZE, i);
      }
    }
    SameBits(s, o);
  }

  lemma EmptyIffNothing(s: Set)
    requires InCatalogue(s)
    ensures s == 0 <==> forall p :: !Has(s, p)
  {
    if forall p :: !Has(s, p) {
      forall p
        ensures Has(s, p) <==> Has(0, p)
      {
        HasNothing(p);
      }
      Extensional(s, 0);
    }
  }
}
