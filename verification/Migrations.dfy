/** The migration ledger of the Node database: releases bring ever longer lists of migrations, and a
    database opened by any of them, interrupted anywhere, holds a prefix. */
module Migrations {
  import opened Numerals
  import opened Options
  import opened Radix
  import opened Text

  /** A script, with what the platform computes of it: its length in UTF-8 and its digest. */
  datatype Script = Script(text: string, byteLength: nat, digest: string)

  /** A migration as it may be declared: with or without the metadata of the file it was generated from. */
  datatype Definition = Definition(
    version: int, sql: Script, file: Option<string>, bytes: Option<nat>, artifactSha256: Option<string>)

  datatype Migration = Migration(version: int, sql: Script, file: string, bytes: nat, artifactSha256: string) {
    function Declared(): Definition {
      Definition(version, sql, Some(file), Some(bytes), Some(artifactSha256))
    }
  }

  datatype Applied = Applied(version: int, checksum: string)

  datatype Error = MismatchedDefinitions | Newer(version: int) | NotContiguous(version: int) | ChecksumDiffers(version: int) | Interrupted

  /** The ledger in the order of versions, and the scripts that have been committed. */
  datatype Database = Database(ledger: seq<Applied>, scripts: seq<Script>)

  /** The start of the name of a migration's file: its version on at least four places. */
  function FilePrefix(version: nat): string {
    var digits := DecimalText(version);
    seq(if |digits| < 4 then 4 - |digits| else 0, _ => '0') + digits + "_"
  }

  /** The prefix is the version in decimal, on four places if it needs no more, and an underscore. */
  lemma PrefixExactly(version: nat)
    ensures var prefix, n := FilePrefix(version), |FilePrefix(version)| - 1;
            && n >= 4 && prefix[n] == '_' && (forall i | 0 <= i < n :: Decimal(prefix[i]))
            && Value(10, DigitValues(prefix[..n])) == version && (n > 4 ==> prefix[0] != '0')
  {
    DecimalReadsBack(version);
    var digits := DecimalText(version);
    var zeros := seq(if |digits| < 4 then 4 - |digits| else 0, _ => '0');
    assert FilePrefix(version)[..|zeros + digits|] == zeros + digits;
    ZerosDenoteNothing(zeros, digits);
  }

  lemma {:induction false} ZerosDenoteNothing(zeros: string, digits: string)
    requires (forall i | 0 <= i < |zeros| :: zeros[i] == '0') && forall i | 0 <= i < |digits| :: LowerHex(digits[i])
    ensures forall i | 0 <= i < |zeros + digits| :: LowerHex((zeros + digits)[i])
    ensures Value(10, DigitValues(zeros + digits)) == Value(10, DigitValues(digits))
    decreases |digits|
  {
    var whole := zeros + digits;
    if digits == [] {
      assert whole == zeros;
      ZerosAreZero(zeros);
    } else {
      var n := |digits| - 1;
      ZerosDenoteNothing(zeros, digits[..n]);
      assert DigitValues(whole) == DigitValues(zeros + digits[..n]) + [DigitValue(digits[n])];
      assert DigitValues(digits) == DigitValues(digits[..n]) + [DigitValue(digits[n])];
      ValueAppend(10, DigitValues(zeros + digits[..n]), DigitValue(digits[n]));
      ValueAppend(10, DigitValues(digits[..n]), DigitValue(digits[n]));
    }
  }

  lemma {:induction false} ZerosAreZero(zeros: string)
    requires forall i | 0 <= i < |zeros| :: zeros[i] == '0'
    ensures Value(10, DigitValues(zeros)) == 0 == Value(10, DigitValues(""))
    decreases |zeros|
  {
    if zeros != [] {
      var n := |zeros| - 1;
      ZerosAreZero(zeros[..n]);
      assert DigitValues(zeros) == DigitValues(zeros[..n]) + [0];
      ValueAppend(10, DigitValues(zeros[..n]), 0);
    }
  }

  /** A declaration for a version: a script that is not blank, and metadata that are either left out
      altogether or complete and true of the version and of the script. */
  predicate Sound(definition: Definition, version: nat) {
    && definition.version == version && Trim(definition.sql.text) != ""
    && (Bare(definition)
        || (&& definition.file.Some? && FilePrefix(version) <= definition.file.value
            && definition.bytes == Some(definition.sql.byteLength)
            && definition.artifactSha256 == Some(definition.sql.digest)))
  }

  predicate Bare(definition: Definition) {
    definition.file.None? && definition.bytes.None? && definition.artifactSha256.None?
  }

  predicate AllSound(definitions: seq<Definition>, schemaVersion: int) {
    schemaVersion >= 1 && |definitions| == schemaVersion
    && forall i | 0 <= i < |definitions| :: Sound(definitions[i], i + 1)
  }

  function Declarations(migrations: seq<Migration>): (definitions: seq<Definition>)
    ensures |definitions| == |migrations| && forall i | 0 <= i < |migrations| :: definitions[i] == migrations[i].Declared()
  {
    seq(|migrations|, i requires 0 <= i < |migrations| => migrations[i].Declared())
  }

  predicate WellDefined(migrations: seq<Migration>, schemaVersion: int) {
    schemaVersion >= 1 && |migrations| == schemaVersion
    && forall i | 0 <= i < |migrations| :: Sound(migrations[i].Declared(), i + 1)
  }

  method AssertDefinitions(definitions: seq<Definition>, schemaVersion: int) returns (ok: bool)
    ensures ok == AllSound(definitions, schemaVersion)
  {
    if schemaVersion < 1 || |definitions| != schemaVersion {
      return false;
    }
    var index := 0;
    while index < |definitions|
      invariant 0 <= index <= |definitions|
      invariant forall i | 0 <= i < index :: Sound(definitions[i], i + 1)
    {
      var definition := definitions[index];
      if definition.version != index + 1 || Trim(definition.sql.text) == "" {
        return false;
      }
      if !Bare(definition) {
        if definition.file.None? || definition.bytes.None? || definition.artifactSha256.None? {
          return false;
        }
        if !(FilePrefix(index + 1) <= definition.file.value) {
          return false;
        }
        if definition.bytes.value != definition.sql.byteLength || definition.artifactSha256.value != definition.sql.digest {
          return false;
        }
      }
      index := index + 1;
    }
    ok := true;
  }

  /** The complaint about one row of the ledger, if any. */
  function RowError(ledger: seq<Applied>, migrations: seq<Migration>, i: nat): Option<Error>
    requires i < |ledger|
  {
    if i >= |migrations| || ledger[i].version > |migrations| then Some(Newer(ledger[i].version))
    else if ledger[i].version != migrations[i].version then Some(NotContiguous(ledger[i].version))
    else if ledger[i].checksum != migrations[i].artifactSha256 then Some(ChecksumDiffers(migrations[i].version))
    else None
  }

  function LedgerError(ledger: seq<Applied>, migrations: seq<Migration>, i: nat): Option<Error>
    requires i <= |ledger|
    decreases |ledger| - i
  {
    if i == |ledger| then None
    else if RowError(ledger, migrations, i).Some? then RowError(ledger, migrations, i)
    else LedgerError(ledger, migrations, i + 1)
  }

  function LedgerOf(migrations: seq<Migration>): (ledger: seq<Applied>)
    ensures |ledger| == |migrations|
  {
    seq(|migrations|, i requires 0 <= i < |migrations| => Applied(migrations[i].version, migrations[i].artifactSha256))
  }

  function ScriptsOf(migrations: seq<Migration>): (scripts: seq<Script>)
    ensures |scripts| == |migrations|
  {
    seq(|migrations|, i requires 0 <= i < |migrations| => migrations[i].sql)
  }

  /** The database that the first migrations make. */
  function Installed(migrations: seq<Migration>): Database {
    Database(LedgerOf(migrations), ScriptsOf(migrations))
  }

  class MigratedDatabase {
    var database: Database

    /** Opening: the definitions are checked, then the ledger, then what is missing is applied, each
        migration in a transaction of its own. `fault` is the migration that an error strikes. */
    method Open(migrations: seq<Migration>, schemaVersion: int, fault: Option<nat>) returns (error: Option<Error>)
      modifies this
      ensures error == OpenError(old(database), migrations, schemaVersion, fault)
      ensures database == Opened(old(database), migrations, schemaVersion, fault)
    {
      hide Sound, LedgerOf, ScriptsOf;
      var wellDefined := AssertDefinitions(Declarations(migrations), schemaVersion);
      if !wellDefined {
        return Some(MismatchedDefinitions);
      }
      var index := 0;
      while index < |database.ledger|
        invariant 0 <= index <= |database.ledger|
        invariant database == old(database)
        invariant LedgerError(database.ledger, migrations, 0) == LedgerError(database.ledger, migrations, index)
        invariant index <= |migrations|
      {
        if RowError(database.ledger, migrations, index).Some? {
          return RowError(database.ledger, migrations, index);
        }
        index := index + 1;
      }
      while index < |migrations|
        invariant |old(database).ledger| <= index <= |migrations|
        invariant fault.None? || fault.value < |old(database).ledger| || fault.value >= index
        invariant database == Extended(old(database), migrations, |old(database).ledger|, index)
      {
        var begun := database;
        database := database.(scripts := database.scripts + [migrations[index].sql]);
        if fault == Some(index) {
          database := begun;
          return Some(Interrupted);
        }
        database := database.(ledger := database.ledger + [Applied(migrations[index].version, migrations[index].artifactSha256)]);
        ExtendedOnce(old(database), migrations, |old(database).ledger|, index);
        index := index + 1;
      }
      error := None;
    }
  }

  /** The database with the migrations of a range added. */
  function Extended(database: Database, migrations: seq<Migration>, from: nat, to: nat): Database
    requires from <= to <= |migrations|
  {
    Database(database.ledger + LedgerOf(migrations[from..to]), database.scripts + ScriptsOf(migrations[from..to]))
  }

  lemma ExtendedOnce(database: Database, migrations: seq<Migration>, from: nat, to: nat)
    requires from <= to < |migrations|
    ensures var before, next := Extended(database, migrations, from, to), migrations[to];
            Extended(database, migrations, from, to + 1)
              == Database(before.ledger + [Applied(next.version, next.artifactSha256)], before.scripts + [next.sql])
  {
    assert migrations[from..to + 1] == migrations[from..to] + [migrations[to]];
  }

  lemma {:induction false} CheckedFits(ledger: seq<Applied>, migrations: seq<Migration>, i: nat)
    requires i <= |ledger| && LedgerError(ledger, migrations, i).None? && i <= |migrations|
    ensures |ledger| <= |migrations|
    ensures forall k | i <= k < |ledger| :: ledger[k] == LedgerOf(migrations)[k]
    decreases |ledger| - i
  {
    if i < |ledger| { CheckedFits(ledger, migrations, i + 1); }
  }

  /** Where an opening stops: at the migration that the fault strikes, or at the end. */
  function StopsAt(database: Database, migrations: seq<Migration>, fault: Option<nat>): (stop: nat)
    requires |database.ledger| <= |migrations|
    ensures |database.ledger| <= stop <= |migrations|
  {
    if fault.Some? && |database.ledger| <= fault.value < |migrations| then fault.value else |migrations|
  }

  function OpenError(database: Database, migrations: seq<Migration>, schemaVersion: int, fault: Option<nat>): Option<Error> {
    if !WellDefined(migrations, schemaVersion) then Some(MismatchedDefinitions)
    else if LedgerError(database.ledger, migrations, 0).Some? then LedgerError(database.ledger, migrations, 0)
    else
      CheckedFits(database.ledger, migrations, 0);
      if StopsAt(database, migrations, fault) < |migrations| then Some(Interrupted) else None
  }

  function Opened(database: Database, migrations: seq<Migration>, schemaVersion: int, fault: Option<nat>): Database {
    if !WellDefined(migrations, schemaVersion) || LedgerError(database.ledger, migrations, 0).Some? then database
    else
      CheckedFits(database.ledger, migrations, 0);
      Extended(database, migrations, |database.ledger|, StopsAt(database, migrations, fault))
  }

  // ----- any releases, any interruptions

  /** The checks pass exactly when the ledger is the ledger of a prefix. */
  lemma {:induction false} CheckedExactly(ledger: seq<Applied>, migrations: seq<Migration>, i: nat)
    requires WellDefined(migrations, |migrations|) && i <= |ledger|
    requires |ledger| <= |migrations| && ledger[..i] == LedgerOf(migrations)[..i]
    ensures LedgerError(ledger, migrations, i).None? <==> ledger == LedgerOf(migrations)[..|ledger|]
    decreases |ledger| - i
  {
    if i == |ledger| {
      assert ledger[..i] == ledger;
    } else if ledger[i] == LedgerOf(migrations)[i] {
      CheckedExactly(ledger, migrations, i + 1);
    } else {
      assert ledger != LedgerOf(migrations)[..|ledger|] by {
        assert LedgerOf(migrations)[..|ledger|][i] == LedgerOf(migrations)[i];
      }
    }
  }

  lemma {:induction false} LongerIsNewer(ledger: seq<Applied>, migrations: seq<Migration>, i: nat)
    requires WellDefined(migrations, |migrations|) && i <= |migrations| < |ledger|
    requires forall k | i <= k < |migrations| :: ledger[k] == LedgerOf(migrations)[k]
    ensures LedgerError(ledger, migrations, i) == Some(Newer(ledger[|migrations|].version))
    decreases |migrations| - i
  {
    if i < |migrations| { LongerIsNewer(ledger, migrations, i + 1); }
  }

  /** What the digests are for: when no two scripts share one, a database that one release has made passes
      the checks of another exactly when it was made by the very scripts that release starts with. */
  lemma {:induction false} CheckedScripts(made: seq<Migration>, known: seq<Migration>)
    requires WellDefined(made, |made|) && WellDefined(known, |known|) && |made| <= |known|
    requires forall i, j | 0 <= i < |made| && 0 <= j < |known| ::
               made[i].sql.digest == known[j].sql.digest ==> made[i].sql == known[j].sql
    ensures LedgerError(Installed(made).ledger, known, 0).None? <==> Installed(made) == Installed(known[..|made|])
  {
    var ledger := LedgerOf(made);
    CheckedExactly(ledger, known, 0);
    forall i | 0 <= i < |made|
      ensures made[i].version == known[i].version == i + 1
      ensures made[i].artifactSha256 == made[i].sql.digest && known[i].artifactSha256 == known[i].sql.digest
    {
      assert Sound(made[i].Declared(), i + 1) && Sound(known[i].Declared(), i + 1);
    }
    assert LedgerOf(known)[..|made|] == LedgerOf(known[..|made|]);
    if ledger == LedgerOf(known[..|made|]) {
      forall i | 0 <= i < |made| ensures made[i].sql == known[i].sql {
        assert ledger[i] == LedgerOf(known[..|made|])[i];
      }
      assert ScriptsOf(made) == ScriptsOf(known[..|made|]);
    }
  }

  /** An attempt to open by the release that knows the first `known` migrations. */
  datatype Attempt = Attempt(known: nat, fault: Option<nat>)

  function After(database: Database, all: seq<Migration>, attempts: seq<Attempt>): Database
    requires forall i | 0 <= i < |attempts| :: attempts[i].known <= |all|
  {
    if attempts == [] then database
    else
      var last := attempts[|attempts| - 1];
      Opened(After(database, all, attempts[..|attempts| - 1]), all[..last.known], last.known, last.fault)
  }

  lemma OpenedIsInstalled(all: seq<Migration>, k: nat, known: nat, fault: Option<nat>) returns (reached: nat)
    requires WellDefined(all, |all|) && k <= |all| && 1 <= known <= |all|
    ensures k <= reached <= |all| && Opened(Installed(all[..k]), all[..known], known, fault) == Installed(all[..reached])
    ensures known < k ==>
      reached == k && OpenError(Installed(all[..k]), all[..known], known, fault) == Some(Newer(known + 1))
    ensures k <= known ==>
      && reached == (if fault.Some? && k <= fault.value < known then fault.value else known)
      && OpenError(Installed(all[..k]), all[..known], known, fault) == (if reached < known then Some(Interrupted) else None)
  {
    var database, migrations := Installed(all[..k]), all[..known];
    Numbered(all, known);
    hide Sound;
    if known < k {
      LongerIsNewer(database.ledger, migrations, 0);
      reached := k;
    } else {
      hide LedgerOf, ScriptsOf, LedgerError;
      PrefixPasses(all, k, known);
      reached := StopsAt(database, migrations, fault);
      ExtendedInstalled(all, k, known, reached);
    }
  }

  lemma Numbered(all: seq<Migration>, known: nat)
    requires WellDefined(all, |all|) && 1 <= known <= |all|
    ensures WellDefined(all[..known], known) && forall i | 0 <= i < |all| :: all[i].version == i + 1
  {
    hide FilePrefix, Trim;
    forall i | 0 <= i < |all| ensures Sound(all[i].Declared(), i + 1) && all[i].version == i + 1 {
    }
  }

  lemma PrefixPasses(all: seq<Migration>, k: nat, known: nat)
    requires k <= known <= |all| && WellDefined(all[..known], known)
    ensures LedgerError(LedgerOf(all[..k]), all[..known], 0).None?
  {
    hide Sound;
    assert LedgerOf(all[..k]) == LedgerOf(all[..known])[..k];
    CheckedExactly(LedgerOf(all[..k]), all[..known], 0);
  }

  lemma ExtendedInstalled(all: seq<Migration>, k: nat, known: nat, reached: nat)
    requires k <= reached <= known <= |all|
    ensures Extended(Installed(all[..k]), all[..known], k, reached) == Installed(all[..reached])
  {
    assert all[..reached] == all[..k] + all[..known][k..reached];
  }

  /** Whatever releases open a fresh database in whatever order, and wherever they are interrupted, it always
      holds exactly the first migrations, scripts and ledger alike; no release older than the database opens
      it, and any other either finishes with exactly its own migrations or reports the interruption. */
  lemma {:induction false} AlwaysAPrefix(all: seq<Migration>, attempts: seq<Attempt>) returns (k: nat)
    requires WellDefined(all, |all|) && forall i | 0 <= i < |attempts| :: 1 <= attempts[i].known <= |all|
    ensures k <= |all| && After(Installed([]), all, attempts) == Installed(all[..k])
    ensures attempts != [] ==>
      var last := attempts[|attempts| - 1];
      var before := After(Installed([]), all, attempts[..|attempts| - 1]);
      var error := OpenError(before, all[..last.known], last.known, last.fault);
      && (error.None? ==> k == last.known)
      && (error.Some? ==> error == Some(Interrupted) || (error == Some(Newer(last.known + 1)) && last.known < k))
    decreases |attempts|
  {
    if attempts == [] {
      k := 0;
      assert all[..0] == [];
    } else {
      var last := attempts[|attempts| - 1];
      var before := AlwaysAPrefix(all, attempts[..|attempts| - 1]);
      k := OpenedIsInstalled(all, before, last.known, last.fault);
    }
  }
}
