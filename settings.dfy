/** ArchiveSettings and the option closures that fill it in
    (internal/archive/types.go and internal/archive/archiver.go). */
module Settings {
  import opened Wrappers
  import opened FileSystem

  /** The mode an archive gets when none is configured: 0666. */
  const DefaultArchiveMode: FileMode := 0x1B6

  /** The value of an ArchiveSettings struct. `excludeList` is None for a nil slice. */
  datatype SettingsValue = SettingsValue(excludeList: Option<seq<string>>, fileMode: FileMode, symLink: bool)

  /** The closures WithExcludeList, WithFileMode and WithSymLink return, one
      constructor per closure, carrying the value the closure captured. */
  datatype Options =
    | WithExcludeList(list: Option<seq<string>>)
    | WithFileMode(mode: FileMode)
    | WithSymLink(link: bool)

  /** Running one option closure on a settings value: its own field is replaced,
      the other two are kept. */
  function ApplyOption(s: SettingsValue, o: Options): (r: SettingsValue)
    ensures r.excludeList == (if o.WithExcludeList? then o.list else s.excludeList)
    ensures r.fileMode == (if o.WithFileMode? then o.mode else s.fileMode)
    ensures r.symLink == (if o.WithSymLink? then o.link else s.symLink)
  {
    match o
    case WithExcludeList(list) => s.(excludeList := list)
    case WithFileMode(mode) => s.(fileMode := mode)
    case WithSymLink(link) => s.(symLink := link)
  }

  /** The settings after running `opts` in order on `s`. */
  function FoldOptions(s: SettingsValue, opts: seq<Options>): SettingsValue
    decreases |opts|
  {
    if |opts| == 0 then s else ApplyOption(FoldOptions(s, opts[..|opts| - 1]), opts[|opts| - 1])
  }

  predicate SameField(a: Options, b: Options) {
    (a.WithExcludeList? && b.WithExcludeList?) || (a.WithFileMode? && b.WithFileMode?) ||
    (a.WithSymLink? && b.WithSymLink?)
  }

  /** The field an option sets holds that option's value in the folded settings. */
  predicate Holds(s: SettingsValue, o: Options) {
    match o
    case WithExcludeList(list) => s.excludeList == list
    case WithFileMode(mode) => s.fileMode == mode
    case WithSymLink(link) => s.symLink == link
  }

  /** A later option wins: the last option that sets a field decides its value. */
  lemma {:induction false} LaterOptionWins(s: SettingsValue, opts: seq<Options>, i: nat)
    requires i < |opts|
    requires forall j :: i < j < |opts| ==> !SameField(opts[j], opts[i])
    ensures Holds(FoldOptions(s, opts), opts[i])
  {
    var n := |opts|;
    if i < n - 1 {
      var init := opts[..n - 1];
      assert forall j :: i < j < |init| ==> init[j] == opts[j];
      LaterOptionWins(s, init, i);
      assert !SameField(opts[n - 1], opts[i]);
    }
  }

  /** A field that no option sets keeps its initial value. */
  lemma {:induction false} UnsetFieldsKept(s: SettingsValue, opts: seq<Options>)
    ensures (forall j :: 0 <= j < |opts| ==> !opts[j].WithExcludeList?) ==>
              FoldOptions(s, opts).excludeList == s.excludeList
    ensures (forall j :: 0 <= j < |opts| ==> !opts[j].WithFileMode?) ==>
              FoldOptions(s, opts).fileMode == s.fileMode
    ensures (forall j :: 0 <= j < |opts| ==> !opts[j].WithSymLink?) ==>
              FoldOptions(s, opts).symLink == s.symLink
    decreases |opts|
  {
    if |opts| > 0 {
      var init := opts[..|opts| - 1];
      UnsetFieldsKept(s, init);
    }
  }

  /** An ArchiveSettings struct, which the option closures update in place. */
  class ArchiveSettings {
    var excludeList: Option<seq<string>>
    var fileMode: FileMode
    var symLink: bool

    function Value(): SettingsValue
      reads this
    {
      SettingsValue(excludeList, fileMode, symLink)
    }

    /** A struct literal: `&ArchiveSettings{ExcludeList: .., FileMode: .., SymLink: ..}`. */
    constructor (excludeList: Option<seq<string>>, fileMode: FileMode, symLink: bool)
      ensures Value() == SettingsValue(excludeList, fileMode, symLink)
    {
      this.excludeList := excludeList;
      this.fileMode := fileMode;
      this.symLink := symLink;
    }

    /** Calling an option closure on this struct. */
    method Apply(o: Options)
      modifies this
      ensures Value() == ApplyOption(old(Value()), o)
    {
      match o
      case WithExcludeList(list) => excludeList := list;
      case WithFileMode(mode) => fileMode := mode;
      case WithSymLink(link) => symLink := link;
    }
  }
}
