/** cogs/user.py: the `/register` command. A user without a `users` row is
    taken through three pages in a direct message (the rules, the online
    lounge, the host self-rating); the row is inserted and the Registered
    role granted only at the end. A user who already has a row is given the
    role straight away. Button presses and timeouts are inputs. */
module Registration {
  import opened Store

  /** What `wait_for_component` gives back on one page: a press of one of the
      page's buttons, or the 90-second timeout. */
  datatype Answer = TimedOut | Pressed(customId: string)

  /** The host preference stored for the button chosen on page 3:
      `3 - int(choice)`, so "1" (good connection) is 2 and "3" (poor) is 0.
      Page 3 offers only the buttons "1", "2" and "3"; any other id would make
      the conversion fail, which the model reports as no preference. */
  function HostPref(choice: string): (r: Option<int>)
    ensures r.Some? <==> choice == "1" || choice == "2" || choice == "3"
    ensures r.Some? ==> 0 <= r.value <= 2
    ensures choice == "1" ==> r == Some(2)
    ensures choice == "2" ==> r == Some(1)
    ensures choice == "3" ==> r == Some(0)
  {
    if choice == "1" then Some(3 - 1)
    else if choice == "2" then Some(3 - 2)
    else if choice == "3" then Some(3 - 3)
    else None
  }

  /** The three choices are told apart by their stored preference. */
  lemma HostPrefInjective(a: string, b: string)
    requires HostPref(a).Some? && HostPref(a) == HostPref(b)
    ensures a == b
  {
  }

  /** How the command ends. */
  datatype Outcome =
    | AlreadyRegistered          // has a row and the role: nothing changes
    | AutoRegistered             // has a row but not the role: the role is added
    | FormTimedOut(page: nat)    // no press within 90 seconds on that page
    | DeclinedRules              // "no" on page 1
    | DeclinedLounge             // "no" on page 2
    | BadChoice                  // page 3 gave an id that is not a number 1..3
    | InsertFailed               // the INSERT raised: "You are already registered."
    | Registered(hostPref: int)  // row inserted and role granted

  /** The command's decision, page by page, with its early returns. */
  function FormOutcome(hasRow: bool, hasRole: bool, a1: Answer, a2: Answer, a3: Answer, insertAccepted: bool)
    : Outcome
  {
    if hasRow then (if hasRole then AlreadyRegistered else AutoRegistered)
    else if a1.TimedOut? then FormTimedOut(1)
    else if a1.customId == "no" then DeclinedRules
    else if a2.TimedOut? then FormTimedOut(2)
    else if a2.customId == "no" then DeclinedLounge
    else if a3.TimedOut? then FormTimedOut(3)
    else if HostPref(a3.customId).None? then BadChoice
    else if !insertAccepted then InsertFailed
    else Registered(HostPref(a3.customId).value)
  }

  /** The outcomes after which the user holds the role. */
  predicate GrantsRole(o: Outcome) {
    o == AutoRegistered || o.Registered?
  }

  /** A user who already has a row sees no form and gets no insert; the
      role is added exactly when they lack it. */
  lemma ExistingUserSkipsForm(hasRole: bool, a1: Answer, a2: Answer, a3: Answer, insertAccepted: bool)
    ensures var o := FormOutcome(true, hasRole, a1, a2, a3, insertAccepted);
      !o.Registered? && (o == AutoRegistered <==> !hasRole) && (o == AlreadyRegistered <==> hasRole)
  {
  }

  /** A row is inserted exactly when the user had none, pressed something
      other than "no" on pages 1 and 2, chose one of the three host ratings,
      and the database took the insert; the stored preference is the one
      chosen. */
  lemma InsertExactly(hasRow: bool, hasRole: bool, a1: Answer, a2: Answer, a3: Answer,
                       insertAccepted: bool, pref: int)
    ensures FormOutcome(hasRow, hasRole, a1, a2, a3, insertAccepted) == Registered(pref) <==>
      && !hasRow
      && a1.Pressed? && a1.customId != "no"
      && a2.Pressed? && a2.customId != "no"
      && a3.Pressed? && HostPref(a3.customId) == Some(pref)
      && insertAccepted
  {
  }

  /** A "no" on page 1 or page 2, or a timeout on any page, stops the form
      with no insert and no role. */
  lemma NoOrTimeoutStops(hasRole: bool, a1: Answer, a2: Answer, a3: Answer, insertAccepted: bool)
    requires a1 == Pressed("no") || a1.TimedOut? ||
             (a1.Pressed? && (a2 == Pressed("no") || a2.TimedOut?)) ||
             (a1.Pressed? && a2.Pressed? && a3.TimedOut?)
    ensures !GrantsRole(FormOutcome(false, hasRole, a1, a2, a3, insertAccepted))
    ensures var o := FormOutcome(false, hasRole, a1, a2, a3, insertAccepted);
      o == DeclinedRules || o == DeclinedLounge || o.FormTimedOut?
  {
  }

  /** The role comes only from a successful insert or from the existing-row
      path; a failed insert grants nothing. */
  lemma RoleOnlyAfterInsertOrExistingRow(hasRow: bool, hasRole: bool, a1: Answer, a2: Answer, a3: Answer,
                                         insertAccepted: bool)
    ensures GrantsRole(FormOutcome(hasRow, hasRole, a1, a2, a3, insertAccepted)) ==>
      (hasRow && !hasRole) || (!hasRow && insertAccepted)
    ensures !insertAccepted && !hasRow ==> !GrantsRole(FormOutcome(hasRow, hasRole, a1, a2, a3, insertAccepted))
  {
  }

  /** register: runs the form for `userId` with the three answers, where
      `insertAccepted` is whether the INSERT succeeds and `now` the
      registration time. */
  method Register(db: Database, guild: Guild, userId: int, a1: Answer, a2: Answer, a3: Answer,
                  insertAccepted: bool, now: int)
    returns (outcome: Outcome)
    modifies db`users, guild`registered
    ensures outcome == FormOutcome(userId in old(db.users), userId in old(guild.registered), a1, a2, a3,
                                   insertAccepted)
    ensures db.users == if outcome.Registered?
                        then old(db.users)[userId := UserRow(outcome.hostPref, now, None)]
                        else old(db.users)
    ensures guild.registered == if GrantsRole(outcome) then old(guild.registered) + {userId}
                                else old(guild.registered)
  {
    if userId in db.users {
      if userId in guild.registered {
        return AlreadyRegistered;
      }
      guild.registered := guild.registered + {userId};
      return AutoRegistered;
    }
    // Page 1 of 3: the rules.
    if a1.TimedOut? {
      return FormTimedOut(1);
    }
    if a1.customId == "no" {
      return DeclinedRules;
    }
    // Page 2 of 3: the online lounge.
    if a2.TimedOut? {
      return FormTimedOut(2);
    }
    if a2.customId == "no" {
      return DeclinedLounge;
    }
    // Page 3 of 3: the host self-rating.
    if a3.TimedOut? {
      return FormTimedOut(3);
    }
    var hostPref := HostPref(a3.customId);
    if hostPref.None? {
      return BadChoice;
    }
    if !insertAccepted {
      return InsertFailed;
    }
    db.users := db.users[userId := UserRow(hostPref.value, now, None)];
    guild.registered := guild.registered + {userId};
    return Registered(hostPref.value);
  }
}
