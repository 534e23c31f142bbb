/** The five note categories and the environment settings that switch
    creation and deletion on per category. The environment is a map from
    variable name to its text; an unset variable reads as "false". */
module Settings {
  import opened Text

  type Config = map<string, string>

  datatype Category = Work | Note | Workout | Youtube | News

  /** The categories in the order the creator's table lists them. */
  const Categories: seq<Category> := [Work, Note, Workout, Youtube, News]

  lemma CategoryListed(c: Category)
    ensures c in Categories
  {
    assert Categories[0] == Work && Categories[1] == Note && Categories[2] == Workout;
    assert Categories[3] == Youtube && Categories[4] == News;
  }

  /** The category's key, which is also the file name stem `<name>.md`. */
  function Name(c: Category): string {
    match c
    case Work => "work"
    case Note => "note"
    case Workout => "workout"
    case Youtube => "youtube"
    case News => "news"
  }

  /** The upper-case word inside the category's setting names. */
  function SettingWord(c: Category): string {
    match c
    case Work => "WORK"
    case Note => "NOTE"
    case Workout => "WORKOUT"
    case Youtube => "YOUTUBE"
    case News => "NEWS"
  }

  const PastCreationSetting := "CAN_CREATE_PAST_FILES"

  /** `CAN_CREATE_FUTURE_<CAT>_FILES` for future dates, `CAN_CREATE_<CAT>_FILES` otherwise. */
  function CreationSetting(c: Category, isFuture: bool): string {
    if isFuture then "CAN_CREATE_FUTURE_" + SettingWord(c) + "_FILES"
    else "CAN_CREATE_" + SettingWord(c) + "_FILES"
  }

  function DeletionSetting(c: Category): string {
    "CAN_DELETE_EMPTY_PAST_" + SettingWord(c) + "_FILES"
  }

  /** `os.getenv(name, 'false').lower() == 'true'`. */
  predicate FlagOn(cfg: Config, name: string) {
    name in cfg && Lower(cfg[name]) == "true"
  }

  predicate IsLetter(c: char, lower: char, upper: char) {
    c == lower || c == upper
  }

  /** A setting is on exactly when it is set to "true" in any mix of letter cases. */
  lemma FlagOnSpelling(cfg: Config, name: string)
    ensures FlagOn(cfg, name) <==>
      && name in cfg
      && |cfg[name]| == 4
      && IsLetter(cfg[name][0], 't', 'T')
      && IsLetter(cfg[name][1], 'r', 'R')
      && IsLetter(cfg[name][2], 'u', 'U')
      && IsLetter(cfg[name][3], 'e', 'E')
  {
    if name in cfg && |cfg[name]| == 4 {
      var v := cfg[name];
      assert Lower(v) == [LowerChar(v[0]), LowerChar(v[1]), LowerChar(v[2]), LowerChar(v[3])];
    }
  }
}
