/**
 * The dependency partition of parse_mod_file_details
 * (mpm/spiders/curseforge.py): every related-project entry of a file
 * detail page goes, stripped, into the "optional" or the "required" list
 * of dependency_dict.
 */
module Dependencies {
  import opened Wrappers
  import opened Builtins

  /**
   * One related-project entry: the text nodes of its name element, and what
   * matched the "optionallibrary" marker inside it.
   */
  datatype DependencyEntry = DependencyEntry(nameTexts: seq<string>, optionalMarkers: seq<string>)

  /** dep_name_match[0] exists for every entry. */
  predicate AllNamed(entries: seq<DependencyEntry>) {
    forall i :: 0 <= i < |entries| ==> |entries[i].nameTexts| > 0
  }

  /** An entry is optional exactly when one marker matched. */
  predicate IsOptional(e: DependencyEntry) {
    |e.optionalMarkers| == 1
  }

  /** The name stored for an entry: its first text node, stripped. */
  function DependencyName(e: DependencyEntry): string
    requires |e.nameTexts| > 0
  {
    Strip(e.nameTexts[0])
  }

  /** The names of the optional entries, in document order. */
  function OptionalNames(entries: seq<DependencyEntry>): seq<string>
    requires AllNamed(entries)
  {
    if entries == [] then []
    else
      var e := entries[|entries| - 1];
      OptionalNames(entries[..|entries| - 1]) + (if IsOptional(e) then [DependencyName(e)] else [])
  }

  /** The names of the required entries, in document order. */
  function RequiredNames(entries: seq<DependencyEntry>): seq<string>
    requires AllNamed(entries)
  {
    if entries == [] then []
    else
      var e := entries[|entries| - 1];
      RequiredNames(entries[..|entries| - 1]) + (if IsOptional(e) then [] else [DependencyName(e)])
  }

  /** How many entries are optional. */
  function CountOptional(entries: seq<DependencyEntry>): nat {
    if entries == [] then 0
    else CountOptional(entries[..|entries| - 1]) + (if IsOptional(entries[|entries| - 1]) then 1 else 0)
  }

  /** The names of all entries, in document order. */
  function Names(entries: seq<DependencyEntry>): seq<string>
    requires AllNamed(entries)
  {
    if entries == [] then [] else Names(entries[..|entries| - 1]) + [DependencyName(entries[|entries| - 1])]
  }

  /**
   * The loop of parse_mod_file_details over the related-project entries:
   * dependency_dict starts with two empty lists and each entry's stripped
   * name is appended to the list its marker count selects. An entry without
   * a name text ends the loop with IndexError.
   */
  method PartitionDependencies(entries: seq<DependencyEntry>) returns (r: Result<map<string, seq<string>>>)
    ensures r.Err? <==> !AllNamed(entries)
    ensures r.Err? ==> r.error == IndexOutOfRange
    ensures r.Ok? ==> r.value == map["optional" := OptionalNames(entries), "required" := RequiredNames(entries)]
  {
    var dependencyDict: map<string, seq<string>> := map["optional" := [], "required" := []];
    for i := 0 to |entries|
      invariant AllNamed(entries[..i])
      invariant dependencyDict == map["optional" := OptionalNames(entries[..i]), "required" := RequiredNames(entries[..i])]
    {
      var dep := entries[i];
      if |dep.nameTexts| == 0 {
        return Err(IndexOutOfRange);
      }
      var depName := Strip(dep.nameTexts[0]);
      var depType := if |dep.optionalMarkers| == 1 then "optional" else "required";
      PartitionStep(entries, i);
      assert depName == DependencyName(dep) && (depType == "optional" <==> IsOptional(dep));
      dependencyDict := dependencyDict[depType := dependencyDict[depType] + [depName]];
      assert dependencyDict["optional"] == OptionalNames(entries[..i + 1]);
      assert dependencyDict["required"] == RequiredNames(entries[..i + 1]);
    }
    assert entries[..|entries|] == entries;
    return Ok(dependencyDict);
  }

  /** One more named entry is appended to the list its marker count selects, and the other list is kept. */
  lemma PartitionStep(entries: seq<DependencyEntry>, i: nat)
    requires i < |entries| && AllNamed(entries[..i]) && |entries[i].nameTexts| > 0
    ensures AllNamed(entries[..i + 1])
    ensures var e := entries[i];
            OptionalNames(entries[..i + 1]) == OptionalNames(entries[..i]) + (if IsOptional(e) then [DependencyName(e)] else []) &&
            RequiredNames(entries[..i + 1]) == RequiredNames(entries[..i]) + (if IsOptional(e) then [] else [DependencyName(e)])
  {
    var done := entries[..i + 1];
    assert done[..i] == entries[..i] && done[i] == entries[i];
  }

  /** Every entry lands in one list: the two lists together are as long as the entries. */
  lemma {:induction false} PartitionCount(entries: seq<DependencyEntry>)
    requires AllNamed(entries)
    ensures |OptionalNames(entries)| == CountOptional(entries)
    ensures |OptionalNames(entries)| + |RequiredNames(entries)| == |entries|
  {
    if entries != [] {
      PartitionCount(entries[..|entries| - 1]);
    }
  }

  /** The two lists hold together exactly the stripped names of the entries. */
  lemma {:induction false} PartitionNames(entries: seq<DependencyEntry>)
    requires AllNamed(entries)
    ensures multiset(OptionalNames(entries)) + multiset(RequiredNames(entries)) == multiset(Names(entries))
  {
    if entries != [] {
      PartitionNames(entries[..|entries| - 1]);
    }
  }

  /**
   * Where each entry lands: an optional entry's name is in the optional list
   * at the position given by the optional entries before it, any other
   * entry's name is in the required list at the position given by the
   * required entries before it. Positions grow with the entry's index, so
   * each list keeps document order.
   */
  lemma {:induction false} EntryPlacement(entries: seq<DependencyEntry>, i: nat)
    requires AllNamed(entries) && i < |entries|
    ensures var before := CountOptional(entries[..i]);
            before <= i &&
            if IsOptional(entries[i]) then
              before < |OptionalNames(entries)| && OptionalNames(entries)[before] == DependencyName(entries[i])
            else
              i - before < |RequiredNames(entries)| && RequiredNames(entries)[i - before] == DependencyName(entries[i])
  {
    var init := entries[..|entries| - 1];
    PartitionCount(init);
    CountOptionalBound(entries[..i]);
    if i < |init| {
      assert init[..i] == entries[..i];
      EntryPlacement(init, i);
    } else {
      assert entries[..i] == init;
    }
  }

  lemma {:induction false} CountOptionalBound(entries: seq<DependencyEntry>)
    ensures CountOptional(entries) <= |entries|
  {
    if entries != [] {
      CountOptionalBound(entries[..|entries| - 1]);
    }
  }

  /** Every name in either list is the stripped name of an entry of that kind. */
  lemma {:induction false} ListedNamesComeFromEntries(entries: seq<DependencyEntry>, name: string)
    requires AllNamed(entries)
    ensures name in OptionalNames(entries) ==>
              exists i :: 0 <= i < |entries| && IsOptional(entries[i]) && DependencyName(entries[i]) == name
    ensures name in RequiredNames(entries) ==>
              exists i :: 0 <= i < |entries| && !IsOptional(entries[i]) && DependencyName(entries[i]) == name
  {
    if entries != [] {
      var init := entries[..|entries| - 1];
      ListedNamesComeFromEntries(init, name);
      assert forall i :: 0 <= i < |init| ==> init[i] == entries[i];
    }
  }

  /** Stored names never start or end with whitespace. */
  lemma NamesAreStripped(entries: seq<DependencyEntry>, name: string)
    requires AllNamed(entries)
    requires name in OptionalNames(entries) || name in RequiredNames(entries)
    ensures name == [] || (!IsSpace(name[0]) && !IsSpace(name[|name| - 1]))
  {
    ListedNamesComeFromEntries(entries, name);
    var i :| 0 <= i < |entries| && DependencyName(entries[i]) == name;
    var e := entries[i];
    assert |e.nameTexts| > 0;
    var text := e.nameTexts[0];
    assert DependencyName(e) == Strip(text);
    StripIsTrimmedSlice(text);
  }
}
