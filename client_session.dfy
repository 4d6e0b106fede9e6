/** The client's session slice: `sessionReducer` sets or clears the signed-in
    user and keeps every other field of the slice. */
module ClientSession {
  import opened Wrappers
  import opened UserRules

  /** `user` is the safe user the server returned, or null; `others` stands
      for any further fields the slice holds. */
  datatype SessionState = SessionState(user: Option<SafeUser>, others: map<string, string>)

  const InitialState := SessionState(None, map[])

  datatype SessionAction =
    | GetCurrentUser(payload: Option<SafeUser>)
    | RemoveCurrentUser
    | Other(tag: string)

  function SessionReducer(s: SessionState, a: SessionAction): SessionState {
    match a
    case GetCurrentUser(payload) => s.(user := payload)
    case RemoveCurrentUser => s.(user := None)
    case Other(_) => s
  }

  /** A run of actions, applied in order. */
  function Run(s: SessionState, actions: seq<SessionAction>): SessionState
    decreases |actions|
  {
    if actions == [] then s else Run(SessionReducer(s, actions[0]), actions[1..])
  }

  /** The user after a run is the payload of its last GET_CURRENT_USER or
      REMOVE_CURRENT_USER, or the starting user if it has none. */
  function LastUser(start: Option<SafeUser>, actions: seq<SessionAction>): Option<SafeUser>
    decreases |actions|
  {
    if actions == [] then start
    else
      match actions[|actions| - 1]
      case GetCurrentUser(payload) => payload
      case RemoveCurrentUser => None
      case Other(_) => LastUser(start, actions[..|actions| - 1])
  }

  lemma {:induction false} RunAppend(s: SessionState, actions: seq<SessionAction>, a: SessionAction)
    ensures Run(s, actions + [a]) == SessionReducer(Run(s, actions), a)
    decreases |actions|
  {
    if actions == [] {
      assert ([] + [a])[1..] == [];
    } else {
      assert (actions + [a])[1..] == actions[1..] + [a];
      RunAppend(SessionReducer(s, actions[0]), actions[1..], a);
    }
  }

  /** Every run keeps the other fields, and ends with the user the last
      setting action put there. */
  lemma {:induction false} RunKeepsOthers(s: SessionState, actions: seq<SessionAction>)
    ensures Run(s, actions).others == s.others
    ensures Run(s, actions).user == LastUser(s.user, actions)
    decreases |actions|
  {
    if actions != [] {
      var init, a := actions[..|actions| - 1], actions[|actions| - 1];
      assert init + [a] == actions;
      RunAppend(s, init, a);
      RunKeepsOthers(s, init);
    }
  }

  /** GET_CURRENT_USER sets the user to the payload; REMOVE_CURRENT_USER
      clears it, and clearing twice is clearing once; an action of any other
      type keeps the state. */
  lemma SingleActions(s: SessionState, payload: Option<SafeUser>, tag: string)
    ensures SessionReducer(s, GetCurrentUser(payload)).user == payload
    ensures SessionReducer(s, RemoveCurrentUser).user == None
    ensures SessionReducer(SessionReducer(s, RemoveCurrentUser), RemoveCurrentUser) == SessionReducer(s, RemoveCurrentUser)
    ensures SessionReducer(s, Other(tag)) == s
  {
  }
}
