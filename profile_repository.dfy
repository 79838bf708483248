/**
 * The profile repository: the editable columns of the `users` and `user_profiles` rows, keyed
 * by user id, and, read only, the `followers` rows. A profile edit arrives as a loosely typed
 * form (JSON decoded into `map[string]interface{}`); each UPDATE sets only the columns the
 * form supplies usably, plus `updated_at`.
 */
module ProfileRepository {
  import opened Wrappers
  import FollowRepository

  /** A decoded form value: a string, a boolean, or anything else (a number, a list, null). */
  datatype FormValue = Str(s: string) | Bool(b: bool) | Other
  type Form = map<string, FormValue>

  /** The `users` columns a profile edit can touch. */
  datatype UserRow = UserRow(nickname: string, aboutMe: string, avatar: string, isPublic: bool, updatedAt: int)

  /** The `user_profiles` row: its text columns by name, `is_private` and `updated_at`. */
  datatype ProfileRow = ProfileRow(text: map<string, string>, isPrivate: bool, updatedAt: int)

  /** One `column = ?` of an UPDATE with its value. */
  datatype Assignment = SetTime(column: string, time: int) | SetText(column: string, text: string) | SetFlag(column: string, flag: bool)

  /** The form holds a non-empty string under `key`. */
  predicate HasText(form: Form, key: string)
  {
    key in form && form[key].Str? && form[key].s != ""
  }

  /** The form holds a boolean under `key`. */
  predicate HasFlag(form: Form, key: string)
  {
    key in form && form[key].Bool?
  }

  // ---------------------------------------------------------------- users

  /** What the users UPDATE must leave: each column the form supplies set, the rest kept. */
  function UserUpdated(row: UserRow, form: Form, now: int): (r: UserRow)
    ensures r.updatedAt == now
    ensures r.nickname == (if HasText(form, "username") then form["username"].s else row.nickname)
    ensures r.aboutMe == (if HasText(form, "bio") then form["bio"].s else row.aboutMe)
    ensures r.avatar == (if HasText(form, "profileImage") then form["profileImage"].s else row.avatar)
    ensures r.isPublic == (if HasFlag(form, "isPrivate") then !form["isPrivate"].b else row.isPublic)
  {
    UserRow(
      if HasText(form, "username") then form["username"].s else row.nickname,
      if HasText(form, "bio") then form["bio"].s else row.aboutMe,
      if HasText(form, "profileImage") then form["profileImage"].s else row.avatar,
      if HasFlag(form, "isPrivate") then !form["isPrivate"].b else row.isPublic,
      now)
  }

  /** `UserUpdated` with only the first `n` of the four editable columns considered. */
  ghost function UserUpdatedUpTo(row: UserRow, form: Form, now: int, n: nat): (r: UserRow)
    ensures n >= 4 ==> r == UserUpdated(row, form, now)
  {
    var r0 := row.(updatedAt := now);
    var r1 := if n >= 1 && HasText(form, "username") then r0.(nickname := form["username"].s) else r0;
    var r2 := if n >= 2 && HasText(form, "bio") then r1.(aboutMe := form["bio"].s) else r1;
    var r3 := if n >= 3 && HasText(form, "profileImage") then r2.(avatar := form["profileImage"].s) else r2;
    if n >= 4 && HasFlag(form, "isPrivate") then r3.(isPublic := !form["isPrivate"].b) else r3
  }

  /** Whether the form supplies any users column at all. */
  predicate TouchesUser(form: Form)
  {
    HasText(form, "username") || HasText(form, "bio") || HasText(form, "profileImage") || HasFlag(form, "isPrivate")
  }

  /** One assignment executed on a users row. */
  function SetUser(row: UserRow, a: Assignment): UserRow
  {
    match a
    case SetTime(c, t) => if c == "updated_at" then row.(updatedAt := t) else row
    case SetText(c, v) =>
      if c == "nickname" then row.(nickname := v)
      else if c == "about_me" then row.(aboutMe := v)
      else if c == "avatar" then row.(avatar := v)
      else row
    case SetFlag(c, b) => if c == "is_public" then row.(isPublic := b) else row
  }

  /** An UPDATE: the assignments executed left to right. */
  function ApplyUser(row: UserRow, fields: seq<Assignment>): UserRow
  {
    if fields == [] then row else SetUser(ApplyUser(row, fields[..|fields| - 1]), fields[|fields| - 1])
  }

  lemma ApplyUserSnoc(row: UserRow, fields: seq<Assignment>, a: Assignment)
    ensures ApplyUser(row, fields + [a]) == SetUser(ApplyUser(row, fields), a)
  {
    assert (fields + [a])[..|fields|] == fields;
  }

  // ---------------------------------------------------------------- profiles

  /** The form field of each `user_profiles` column the edit can write, with that column. */
  const FieldMappings: seq<(string, string)> := [
    ("username", "username"), ("fullName", "full_name"), ("bio", "bio"), ("work", "work"),
    ("education", "education"), ("email", "email"), ("phone", "phone"), ("website", "website"),
    ("location", "location"), ("techSkills", "tech_skills"), ("softSkills", "soft_skills"),
    ("interests", "interests"), ("bannerImage", "banner_image"), ("profileImage", "profile_image"),
    ("isPrivate", "is_private")
  ]

  /** The assignment one mapping contributes: a boolean for `is_private`, a non-empty string otherwise. */
  function Pick(form: Form, mapping: (string, string)): (r: seq<Assignment>)
    ensures mapping.1 == "is_private" ==> r == (if HasFlag(form, mapping.0) then [SetFlag(mapping.1, form[mapping.0].b)] else [])
    ensures mapping.1 != "is_private" ==> r == (if HasText(form, mapping.0) then [SetText(mapping.1, form[mapping.0].s)] else [])
  {
    if mapping.0 !in form then []
    else if mapping.1 == "is_private" then (if form[mapping.0].Bool? then [SetFlag(mapping.1, form[mapping.0].b)] else [])
    else if form[mapping.0].Str? && form[mapping.0].s != "" then [SetText(mapping.1, form[mapping.0].s)]
    else []
  }

  /** The assignments the first `k` mappings contribute, in mapping order. */
  function Picks(form: Form, mappings: seq<(string, string)>, k: nat): seq<Assignment>
    requires k <= |mappings|
  {
    if k == 0 then [] else Picks(form, mappings, k - 1) + Pick(form, mappings[k - 1])
  }

  /** One assignment executed on a `user_profiles` row. */
  function SetProfile(row: ProfileRow, a: Assignment): ProfileRow
  {
    match a
    case SetTime(c, t) => if c == "updated_at" then row.(updatedAt := t) else row
    case SetText(c, v) => row.(text := row.text[c := v])
    case SetFlag(c, b) => if c == "is_private" then row.(isPrivate := b) else row
  }

  /** An UPDATE: the assignments executed left to right. */
  function ApplyProfile(row: ProfileRow, fields: seq<Assignment>): ProfileRow
  {
    if fields == [] then row else SetProfile(ApplyProfile(row, fields[..|fields| - 1]), fields[|fields| - 1])
  }

  /** No two mappings write the same column. */
  predicate DistinctColumns(mappings: seq<(string, string)>)
  {
    forall i, j :: 0 <= i < j < |mappings| ==> mappings[i].1 != mappings[j].1
  }

  lemma ColumnsDistinct()
    ensures DistinctColumns(FieldMappings)
  {
  }

  /** Column `c` keeps its text (or its absence). */
  predicate TextKept(old_: ProfileRow, new_: ProfileRow, c: string)
  {
    (c in new_.text <==> c in old_.text) && (c in old_.text ==> new_.text[c] == old_.text[c])
  }

  /** The text mapping `i` leaves: the form's string if it supplies one, else the old text. */
  predicate TextAfter(old_: ProfileRow, new_: ProfileRow, form: Form, mapping: (string, string))
  {
    if HasText(form, mapping.0) then mapping.1 in new_.text && new_.text[mapping.1] == form[mapping.0].s
    else TextKept(old_, new_, mapping.1)
  }

  /** What the `user_profiles` UPDATE must leave, column by column. */
  ghost predicate ProfileUpdated(old_: ProfileRow, new_: ProfileRow, form: Form, now: int, mappings: seq<(string, string)>)
  {
    new_.updatedAt == now &&
    (forall i :: 0 <= i < |mappings| && mappings[i].1 != "is_private" ==> TextAfter(old_, new_, form, mappings[i])) &&
    (forall c :: (forall i :: 0 <= i < |mappings| ==> mappings[i].1 != c) ==> TextKept(old_, new_, c)) &&
    (forall i :: 0 <= i < |mappings| && mappings[i].1 == "is_private" ==>
      new_.isPrivate == if HasFlag(form, mappings[i].0) then form[mappings[i].0].b else old_.isPrivate) &&
    ((forall i :: 0 <= i < |mappings| ==> mappings[i].1 != "is_private") ==> new_.isPrivate == old_.isPrivate)
  }

  lemma ApplyProfileSnoc(row: ProfileRow, fields: seq<Assignment>, a: Assignment)
    ensures ApplyProfile(row, fields + [a]) == SetProfile(ApplyProfile(row, fields), a)
  {
    assert (fields + [a])[..|fields|] == fields;
  }

  /** Executing a leading assignment first is executing it on the row. */
  lemma {:induction false} ApplyProfileCons(row: ProfileRow, a: Assignment, fields: seq<Assignment>)
    ensures ApplyProfile(row, [a] + fields) == ApplyProfile(SetProfile(row, a), fields)
    decreases |fields|
  {
    if fields == [] {
      assert [a] + fields == [] + [a];
    } else {
      var init := fields[..|fields| - 1];
      var last := fields[|fields| - 1];
      assert [a] + fields == ([a] + init) + [last];
      assert fields == init + [last];
      ApplyProfileSnoc(row, [a] + init, last);
      ApplyProfileSnoc(SetProfile(row, a), init, last);
      ApplyProfileCons(row, a, init);
    }
  }

  /** The `k`-th mapping either adds nothing or one assignment executed last. */
  lemma PicksStep(row: ProfileRow, form: Form, mappings: seq<(string, string)>, k: nat)
    requires 0 < k <= |mappings|
    ensures var before := ApplyProfile(row, Picks(form, mappings, k - 1));
      var pick := Pick(form, mappings[k - 1]);
      ApplyProfile(row, Picks(form, mappings, k)) == if pick == [] then before else SetProfile(before, pick[0])
  {
    var pick := Pick(form, mappings[k - 1]);
    if pick == [] {
      assert Picks(form, mappings, k) == Picks(form, mappings, k - 1);
    } else {
      assert Picks(form, mappings, k) == Picks(form, mappings, k - 1) + [pick[0]];
      ApplyProfileSnoc(row, Picks(form, mappings, k - 1), pick[0]);
    }
  }

  /** The mapped assignments never write `updated_at`. */
  lemma {:induction false} PicksKeepTime(row: ProfileRow, form: Form, mappings: seq<(string, string)>, k: nat)
    requires k <= |mappings|
    ensures ApplyProfile(row, Picks(form, mappings, k)).updatedAt == row.updatedAt
  {
    if k > 0 {
      PicksKeepTime(row, form, mappings, k - 1);
      PicksStep(row, form, mappings, k);
    }
  }

  /** A column no mapping names keeps its text. */
  lemma {:induction false} PicksKeepText(row: ProfileRow, form: Form, mappings: seq<(string, string)>, k: nat, c: string)
    requires k <= |mappings|
    requires forall i :: 0 <= i < k ==> mappings[i].1 != c
    ensures TextKept(row, ApplyProfile(row, Picks(form, mappings, k)), c)
  {
    if k > 0 {
      PicksKeepText(row, form, mappings, k - 1, c);
      PicksStep(row, form, mappings, k);
    }
  }

  /** With no `is_private` mapping the flag is kept. */
  lemma {:induction false} PicksKeepFlag(row: ProfileRow, form: Form, mappings: seq<(string, string)>, k: nat)
    requires k <= |mappings|
    requires forall i :: 0 <= i < k ==> mappings[i].1 != "is_private"
    ensures ApplyProfile(row, Picks(form, mappings, k)).isPrivate == row.isPrivate
  {
    if k > 0 {
      PicksKeepFlag(row, form, mappings, k - 1);
      PicksStep(row, form, mappings, k);
    }
  }

  /** A text mapping leaves the form's string in its column, or the old text. */
  lemma {:induction false} PicksSetText(row: ProfileRow, form: Form, mappings: seq<(string, string)>, k: nat, j: nat)
    requires j < k <= |mappings| && DistinctColumns(mappings) && mappings[j].1 != "is_private"
    ensures TextAfter(row, ApplyProfile(row, Picks(form, mappings, k)), form, mappings[j])
  {
    PicksStep(row, form, mappings, k);
    var before := ApplyProfile(row, Picks(form, mappings, k - 1));
    var after := ApplyProfile(row, Picks(form, mappings, k));
    if j == k - 1 {
      PicksKeepText(row, form, mappings, k - 1, mappings[j].1);
    } else {
      PicksSetText(row, form, mappings, k - 1, j);
      var c := mappings[j].1;
      assert c != mappings[k - 1].1;
      assert (c in after.text <==> c in before.text) && (c in before.text ==> after.text[c] == before.text[c]);
    }
  }

  /** The `is_private` mapping leaves the form's boolean, or the old flag. */
  lemma {:induction false} PicksSetFlag(row: ProfileRow, form: Form, mappings: seq<(string, string)>, k: nat, j: nat)
    requires j < k <= |mappings| && DistinctColumns(mappings) && mappings[j].1 == "is_private"
    ensures ApplyProfile(row, Picks(form, mappings, k)).isPrivate ==
      if HasFlag(form, mappings[j].0) then form[mappings[j].0].b else row.isPrivate
  {
    PicksStep(row, form, mappings, k);
    if j == k - 1 {
      PicksKeepFlag(row, form, mappings, k - 1);
    } else {
      PicksSetFlag(row, form, mappings, k - 1, j);
      assert mappings[j].1 != mappings[k - 1].1;
    }
  }

  /**
   * `updated_at` followed by the assignments of all mappings, executed, set exactly the columns
   * the form supplies.
   */
  lemma PicksEffect(row: ProfileRow, form: Form, now: int, mappings: seq<(string, string)>)
    requires DistinctColumns(mappings)
    ensures ProfileUpdated(row, ApplyProfile(row, [SetTime("updated_at", now)] + Picks(form, mappings, |mappings|)), form, now, mappings)
  {
    var k := |mappings|;
    var base := SetProfile(row, SetTime("updated_at", now));
    ApplyProfileCons(row, SetTime("updated_at", now), Picks(form, mappings, k));
    PicksKeepTime(base, form, mappings, k);
    assert base.text == row.text && base.isPrivate == row.isPrivate;
    forall i | 0 <= i < k && mappings[i].1 != "is_private"
      ensures TextAfter(row, ApplyProfile(base, Picks(form, mappings, k)), form, mappings[i])
    {
      PicksSetText(base, form, mappings, k, i);
    }
    forall c | forall i :: 0 <= i < k ==> mappings[i].1 != c
      ensures TextKept(row, ApplyProfile(base, Picks(form, mappings, k)), c)
    {
      PicksKeepText(base, form, mappings, k, c);
    }
    forall i | 0 <= i < k && mappings[i].1 == "is_private"
      ensures ApplyProfile(base, Picks(form, mappings, k)).isPrivate ==
        if HasFlag(form, mappings[i].0) then form[mappings[i].0].b else row.isPrivate
    {
      PicksSetFlag(base, form, mappings, k, i);
    }
    if forall i :: 0 <= i < k ==> mappings[i].1 != "is_private" {
      PicksKeepFlag(base, form, mappings, k);
    }
  }

  // ---------------------------------------------------------------- the store

  class ProfileStore {
    var users: map<string, UserRow>
    var profiles: map<string, ProfileRow>
    var links: seq<FollowRepository.Link>

    constructor(users: map<string, UserRow>, profiles: map<string, ProfileRow>, links: seq<FollowRepository.Link>)
      ensures this.users == users && this.profiles == profiles && this.links == links
    {
      this.users, this.profiles, this.links := users, profiles, links;
    }

    /** `IsUserProfilePublic`: the user's `is_public`, or an error for an unknown user. */
    function IsUserProfilePublic(u: string): (r: Result<bool>)
      reads this
      ensures r.Err? <==> u !in users
      ensures r.Err? ==> r.msg == "user not found"
      ensures r.Ok? ==> r.value == users[u].isPublic
    {
      if u in users then Ok(users[u].isPublic) else Err("user not found")
    }

    /**
     * `UpdateUserProfile`. The users assignments are gathered for a non-empty form, the
     * profile assignments from the field mappings; each UPDATE runs only when it has more than
     * its `updated_at`, and an UPDATE of a missing row changes nothing.
     */
    method UpdateUserProfile(u: string, form: Form, now: int)
      modifies this
      ensures |form| > 0 && TouchesUser(form) && u in old(users) ==> users == old(users)[u := UserUpdated(old(users)[u], form, now)]
      ensures !(|form| > 0 && TouchesUser(form) && u in old(users)) ==> users == old(users)
      ensures Picks(form, FieldMappings, |FieldMappings|) != [] && u in old(profiles) ==>
        u in profiles && profiles == old(profiles)[u := profiles[u]] && ProfileUpdated(old(profiles)[u], profiles[u], form, now, FieldMappings)
      ensures !(Picks(form, FieldMappings, |FieldMappings|) != [] && u in old(profiles)) ==> profiles == old(profiles)
      ensures links == old(links)
    {
      if |form| > 0 {
        ghost var row := if u in users then users[u] else UserRow("", "", "", false, 0);
        var userFields := UserAssignments(row, form, now);
        if |userFields| > 1 && u in users {
          users := users[u := ApplyUser(users[u], userFields)];
        }
      }
      var profileFields := ProfileAssignments(form, now);
      if |profileFields| > 1 && u in profiles {
        ColumnsDistinct();
        PicksEffect(profiles[u], form, now, FieldMappings);
        profiles := profiles[u := ApplyProfile(profiles[u], profileFields)];
      }
    }

    /**
     * The users assignments of `UpdateUserProfile`: `updated_at`, then each supplied column;
     * `row` is the row they will be executed on.
     */
    static method UserAssignments(ghost row: UserRow, form: Form, now: int) returns (userFields: seq<Assignment>)
      ensures ApplyUser(row, userFields) == UserUpdated(row, form, now)
      ensures |userFields| > 1 <==> TouchesUser(form)
    {
      userFields := [SetTime("updated_at", now)];
      ApplyUserSnoc(row, [], SetTime("updated_at", now));
      assert [] + [SetTime("updated_at", now)] == userFields;
      if HasText(form, "username") {
        ApplyUserSnoc(row, userFields, SetText("nickname", form["username"].s));
        userFields := userFields + [SetText("nickname", form["username"].s)];
      }
      assert ApplyUser(row, userFields) == UserUpdatedUpTo(row, form, now, 1);
      if HasText(form, "bio") {
        ApplyUserSnoc(row, userFields, SetText("about_me", form["bio"].s));
        userFields := userFields + [SetText("about_me", form["bio"].s)];
      }
      assert ApplyUser(row, userFields) == UserUpdatedUpTo(row, form, now, 2);
      if HasText(form, "profileImage") {
        ApplyUserSnoc(row, userFields, SetText("avatar", form["profileImage"].s));
        userFields := userFields + [SetText("avatar", form["profileImage"].s)];
      }
      assert ApplyUser(row, userFields) == UserUpdatedUpTo(row, form, now, 3);
      if HasFlag(form, "isPrivate") {
        ApplyUserSnoc(row, userFields, SetFlag("is_public", !form["isPrivate"].b));
        userFields := userFields + [SetFlag("is_public", !form["isPrivate"].b)];
      }
      assert ApplyUser(row, userFields) == UserUpdatedUpTo(row, form, now, 4);
    }

    /** The profile assignments of `UpdateUserProfile`: `updated_at`, then the mappings' picks in order. */
    static method ProfileAssignments(form: Form, now: int) returns (profileFields: seq<Assignment>)
      ensures profileFields == [SetTime("updated_at", now)] + Picks(form, FieldMappings, |FieldMappings|)
    {
      profileFields := [SetTime("updated_at", now)];
      var i := 0;
      while i < |FieldMappings|
        invariant 0 <= i <= |FieldMappings|
        invariant profileFields == [SetTime("updated_at", now)] + Picks(form, FieldMappings, i)
      {
        profileFields := profileFields + Pick(form, FieldMappings[i]);
        i := i + 1;
      }
    }
  }
}
