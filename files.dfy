/** `move_csv_files`: moving the CSV downloads from one folder to another.
    A folder is the set of names it holds; the destination folder may not
    exist yet, in which case it holds nothing. */
module Files {
  import opened Text

  /** The name ends with ".csv" in any mix of letter case. */
  predicate IsCsv(name: string) {
    EndsWith(Lower(name), ".csv")
  }

  /** Changing the letter case of a name does not change whether it is a CSV. */
  lemma CsvIgnoresCase(name: string)
    ensures IsCsv(Upper(name)) <==> IsCsv(name)
    ensures IsCsv(Lower(name)) <==> IsCsv(name)
  {
    var u, l := Upper(name), Lower(name);
    assert Lower(u) == Lower(name) by {
      forall i | 0 <= i < |name| ensures Lower(u)[i] == Lower(name)[i] {
        assert LowerChar(UpperChar(name[i])) == LowerChar(name[i]);
      }
    }
    assert Lower(l) == Lower(name);
  }

  /** The two folders and whether the destination has been created. */
  datatype Folders = Folders(source: set<string>, destination: set<string>, destinationExists: bool)

  /** A destination that does not exist holds nothing. */
  predicate Consistent(f: Folders) {
    !f.destinationExists ==> f.destination == {}
  }

  function CsvNamesOf(names: set<string>): set<string> {
    set n | n in names && IsCsv(n)
  }

  /** The folders after every CSV of the source has been moved, name kept.
      A file of the same name already in the destination is replaced. */
  function AfterMove(f: Folders): (r: Folders)
    ensures forall n :: n in r.source ==> !IsCsv(n)
    ensures forall n :: n in f.source && !IsCsv(n) ==> n in r.source
    ensures r.source <= f.source && f.destination <= r.destination
    ensures r.source + r.destination == f.source + f.destination
    ensures forall n :: n in r.destination - f.destination ==> n in f.source && IsCsv(n)
    ensures r.destinationExists <==> f.destinationExists || CsvNamesOf(f.source) != {}
    ensures Consistent(f) ==> Consistent(r)
  {
    var moved := CsvNamesOf(f.source);
    Folders(f.source - moved, f.destination + moved, f.destinationExists || moved != {})
  }

  lemma CsvNamesAdd(names: set<string>, n: string)
    ensures CsvNamesOf(names + {n}) == CsvNamesOf(names) + (if IsCsv(n) then {n} else {})
  {
  }

  /** Moving a second time changes nothing. */
  lemma MoveIdempotent(f: Folders)
    ensures AfterMove(AfterMove(f)) == AfterMove(f)
  {
    var r := AfterMove(f);
    assert CsvNamesOf(r.source) == {};
  }

  /** The CSV names among the first `i` names of `listing`, a listing in the
      order `os.listdir` gives. */
  function CsvUpTo(listing: seq<string>, i: nat): (r: set<string>)
    requires i <= |listing|
  {
    if i == 0 then {}
    else CsvUpTo(listing, i - 1) + (if IsCsv(listing[i - 1]) then {listing[i - 1]} else {})
  }

  /** A name is in `CsvUpTo(listing, i)` exactly when it is a CSV among the
      first `i` names. */
  lemma {:induction false} CsvUpToMembers(listing: seq<string>, i: nat)
    requires i <= |listing|
    ensures forall n :: n in CsvUpTo(listing, i) <==> IsCsv(n) && exists j :: 0 <= j < i && listing[j] == n
  {
    if i > 0 {
      CsvUpToMembers(listing, i - 1);
    }
  }

  /** One more name of the listing: a CSV goes over and the destination
      exists; any other name changes nothing. */
  lemma MovedStep(f: Folders, listing: seq<string>, i: nat)
    requires i < |listing|
    ensures var m := Moved(f, CsvUpTo(listing, i), false);
            Moved(f, CsvUpTo(listing, i + 1), false)
            == if IsCsv(listing[i]) then Folders(m.source - {listing[i]}, m.destination + {listing[i]}, true) else m
  {
  }

  /** Over a whole listing of `names`, the CSVs are those of `names`. */
  lemma CsvUpToAll(listing: seq<string>, names: set<string>)
    requires forall n :: n in listing <==> n in names
    ensures CsvUpTo(listing, |listing|) == CsvNamesOf(names)
  {
    CsvUpToMembers(listing, |listing|);
  }

  /** Whether handling the CSV `n` raises: `shutil.move` raises for the names
      in `unmovable`, and every `os.makedirs` raises when the destination is
      missing and cannot be created (`blocked`). */
  predicate MoveFails(n: string, blocked: bool, unmovable: set<string>) {
    IsCsv(n) && (blocked || n in unmovable)
  }

  /** The index of the first name of the listing whose handling raises, or
      the length of the listing when none does. */
  function FirstFailure(names: seq<string>, blocked: bool, unmovable: set<string>): (k: nat)
    ensures k <= |names|
    ensures forall j :: 0 <= j < k ==> !MoveFails(names[j], blocked, unmovable)
    ensures k < |names| ==> MoveFails(names[k], blocked, unmovable)
    decreases |names|
  {
    if names == [] then 0
    else if MoveFails(names[0], blocked, unmovable) then 0
    else 1 + FirstFailure(names[1..], blocked, unmovable)
  }

  /** Up to the first failure, a position fails exactly when it is that one. */
  lemma FirstFailureAt(names: seq<string>, blocked: bool, unmovable: set<string>, i: nat)
    requires i < |names| && i <= FirstFailure(names, blocked, unmovable)
    ensures MoveFails(names[i], blocked, unmovable) <==> i == FirstFailure(names, blocked, unmovable)
  {
  }

  /** The folders after the names `moved` went from the source to the
      destination; `created` says whether the destination was created on the
      way without a file reaching it. */
  function Moved(f: Folders, moved: set<string>, created: bool): (r: Folders)
    ensures moved <= f.source ==> r.source + r.destination == f.source + f.destination
    ensures r.source == f.source - moved && r.destination == f.destination + moved
    ensures Consistent(f) && (created ==> moved != {} || r.destinationExists) ==> Consistent(r)
  {
    Folders(f.source - moved, f.destination + moved, f.destinationExists || moved != {} || created)
  }

  /** Moving every CSV of the source is the end state `AfterMove` describes. */
  lemma MovedAll(f: Folders)
    ensures Moved(f, CsvNamesOf(f.source), false) == AfterMove(f)
  {
  }

  /** After a failure at index `k`, the CSV that raised and every later name
      of the listing are still in the source. */
  lemma {:induction false} FailureKeepsRest(f: Folders, listing: seq<string>, k: nat, created: bool)
    requires k <= |listing|
    requires forall n :: n in listing <==> n in f.source
    requires forall i, j :: 0 <= i < j < |listing| ==> listing[i] != listing[j]
    ensures forall j :: k <= j < |listing| ==> listing[j] in Moved(f, CsvUpTo(listing, k), created).source
  {
    CsvUpToMembers(listing, k);
  }

  /** The folders as the mover sees them. */
  class FileSystem {
    var source: set<string>
    var destination: set<string>
    var destinationExists: bool

    constructor (source: set<string>, destination: set<string>, destinationExists: bool)
      requires !destinationExists ==> destination == {}
      ensures State() == Folders(source, destination, destinationExists) && Valid()
    {
      this.source := source;
      this.destination := destination;
      this.destinationExists := destinationExists;
    }

    function State(): Folders
      reads this
    {
      Folders(source, destination, destinationExists)
    }

    predicate Valid()
      reads this
    {
      Consistent(State())
    }

    /** `os.makedirs(destination, exist_ok=True)`: nothing to do when the
        destination exists; otherwise it is created when `canCreate` holds,
        and raises (`ok` false) when it does not. */
    method MakeDestination(canCreate: bool) returns (ok: bool)
      requires Valid()
      modifies this`destinationExists
      ensures Valid()
      ensures ok <==> old(destinationExists) || canCreate
      ensures destinationExists == ok
    {
      if !destinationExists {
        if !canCreate {
          return false;
        }
        destinationExists := true;
      }
      return true;
    }

    /** `shutil.move` of `file` from the source to the destination, which
        raises (`ok` false, nothing moved) for the names in `unmovable`. A
        file of the same name in the destination is replaced. */
    method MoveFile(file: string, unmovable: set<string>) returns (ok: bool)
      requires Valid() && destinationExists
      modifies this`source, this`destination
      ensures Valid()
      ensures ok <==> file !in unmovable
      ensures ok ==> source == old(source) - {file} && destination == old(destination) + {file}
      ensures !ok ==> source == old(source) && destination == old(destination)
    {
      if file in unmovable {
        return false;
      }
      source := source - {file};
      destination := destination + {file};
      return true;
    }

    /** One name of the listing: a CSV gets the destination created and is
        moved there; any other name is skipped. `ok` is false when
        `os.makedirs` or `shutil.move` raises. */
    method MoveEntry(file: string, canCreate: bool, unmovable: set<string>) returns (ok: bool)
      requires Valid()
      modifies this
      ensures Valid()
      ensures ok <==> !(IsCsv(file) && ((!old(destinationExists) && !canCreate) || file in unmovable))
      ensures ok ==> State() == if IsCsv(file)
                                then Folders(old(source) - {file}, old(destination) + {file}, true)
                                else old(State())
      ensures !ok ==> State() == Folders(old(source), old(destination), old(destinationExists) || canCreate)
    {
      if !IsCsv(file) {
        return true;
      }
      var made := MakeDestination(canCreate);
      if !made {
        return false;
      }
      ok := MoveFile(file, unmovable);
    }

    /** `move_csv_files(source, destination)`. `listed` says whether
        `os.listdir` succeeds, and `listing` is what it returns for the
        source: each of its names once. `canCreate` says whether
        `os.makedirs` can create a missing destination, and `unmovable`
        holds the names for which `shutil.move` raises. The first exception
        ends the call (`ok` false) with the CSVs before it moved. */
    method MoveCsvFiles(listed: bool, listing: seq<string>, canCreate: bool, unmovable: set<string>)
      returns (ok: bool)
      requires Valid()
      requires listed ==> forall n :: n in listing <==> n in source
      requires listed ==> forall i, j :: 0 <= i < j < |listing| ==> listing[i] != listing[j]
      modifies this
      ensures Valid()
      ensures !listed ==> !ok && State() == old(State())
      ensures listed ==>
                var k := FirstFailure(listing, !old(destinationExists) && !canCreate, unmovable);
                && State() == Moved(old(State()), CsvUpTo(listing, k), k < |listing| && canCreate)
                && (ok <==> k == |listing|)
      ensures ok ==> State() == AfterMove(old(State()))
    {
      if !listed {
        return false;
      }
      ghost var start := State();
      ghost var blocked := !start.destinationExists && !canCreate;
      ghost var k := FirstFailure(listing, blocked, unmovable);
      for i := 0 to |listing|
        invariant Valid()
        invariant i <= k
        invariant State() == Moved(start, CsvUpTo(listing, i), false)
        invariant blocked ==> !destinationExists
      {
        ghost var before := State();
        MovedStep(start, listing, i);
        FirstFailureAt(listing, blocked, unmovable, i);
        assert blocked <==> !before.destinationExists && !canCreate;
        var moved := MoveEntry(listing[i], canCreate, unmovable);
        if !moved {
          assert i == k;
          assert State() == Folders(before.source, before.destination, before.destinationExists || canCreate);
          assert k < |listing| && State() == Moved(start, CsvUpTo(listing, k), canCreate);
          return false;
        }
        assert State() == if IsCsv(listing[i])
                          then Folders(before.source - {listing[i]}, before.destination + {listing[i]}, true)
                          else before;
      }
      assert k == |listing|;
      CsvUpToAll(listing, start.source);
      MovedAll(start);
      return true;
    }
  }
}
