/** `loadData`: each collection comes from its storage key, or from the seed
    data when the key is missing, empty or does not parse. Browser storage
    and the JSON parser are outside the model; what the parser makes of a
    text is a parameter. */
module Storage {
  import opened Wrappers
  import opened Records
  import opened Tracker

  /** One collection: `stored` is what `getItem` returned (`None` for null),
      `parse` is `JSON.parse` (`None` where it throws). */
  function LoadCollection<T>(stored: Option<string>, parse: string -> Option<T>, seed: T): (r: T)
    ensures stored.None? ==> r == seed
    ensures stored == Some([]) ==> r == seed
    ensures stored.Some? && parse(stored.value).None? ==> r == seed
    ensures stored.Some? && stored.value != [] && parse(stored.value).Some?
            ==> r == parse(stored.value).value
  {
    match stored
    case None => seed
    case Some(text) =>
      if text == [] then seed
      else parse(text).GetOr(seed)
  }

  /** Both collections, each under its own key and with its own fallback. */
  function Load(team: Option<string>, tasks: Option<string>,
                parseTeam: string -> Option<seq<Member>>,
                parseTasks: string -> Option<seq<Task>>): (s: State)
    ensures team.None? && tasks.None? ==> s == State(DefaultTeam, DefaultTasks)
  {
    State(LoadCollection(team, parseTeam, DefaultTeam),
          LoadCollection(tasks, parseTasks, DefaultTasks))
  }

  /** A first visit, with nothing stored, starts from the well-formed seed data. */
  lemma FirstLoadIsValid(parseTeam: string -> Option<seq<Member>>,
                         parseTasks: string -> Option<seq<Task>>)
    ensures var s := Load(None, None, parseTeam, parseTasks);
            Valid(s) && AssigneesExist(s.members, s.tasks)
  {
    DefaultsWellFormed();
  }

  /** A corrupt or missing team entry does not disturb the tasks, and the
      other way round: the two keys fall back independently. */
  lemma LoadKeysIndependent(team: Option<string>, team': Option<string>, tasks: Option<string>,
                            parseTeam: string -> Option<seq<Member>>,
                            parseTasks: string -> Option<seq<Task>>)
    ensures Load(team, tasks, parseTeam, parseTasks).tasks
            == Load(team', tasks, parseTeam, parseTasks).tasks
  {
  }

  /** Reading back what was written: whenever the parser inverts the
      serializer and the written text is not empty, a save followed by a
      load gives back the saved state. */
  lemma LoadAfterSave(s: State, showTeam: seq<Member> -> string, showTasks: seq<Task> -> string,
                      parseTeam: string -> Option<seq<Member>>,
                      parseTasks: string -> Option<seq<Task>>)
    requires showTeam(s.members) != [] && parseTeam(showTeam(s.members)) == Some(s.members)
    requires showTasks(s.tasks) != [] && parseTasks(showTasks(s.tasks)) == Some(s.tasks)
    ensures Load(Some(showTeam(s.members)), Some(showTasks(s.tasks)), parseTeam, parseTasks) == s
  {
  }
}
