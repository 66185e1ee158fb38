/**
 The two session-state entries `collect_user_intent` and the reset button of
 `display_result` keep between reruns of the page, and the outcome of one
 run of the intent form. `st.rerun()` and `st.stop()` end the script run; here
 they are the outcomes `Rerun` and `Halt`, and the stored intent handed back
 to the caller is `Ready`.
 */
module Session {
  import opened Optional
  import opened Text
  import opened Intent

  /** A session-state entry: not yet set (`key not in st.session_state`) or set to a value. */
  datatype Slot<T> = Absent | Present(value: T)

  /** How one run of the intent form ends. */
  datatype Outcome =
    | Ready(intent: Intent)          // the stored intent is returned to the page
    | Rerun                          // st.rerun(): the page starts over
    | Halt(error: Option<string>)    // st.stop(), after st.error(message) when there is one

  const MissingGoalMessage := "Please describe what information you need before proceeding."

  class SessionState {
    /** `st.session_state.intent_submitted`. */
    var intentSubmitted: Slot<bool>
    /** `st.session_state.user_intent`: None is the empty dictionary `{}`. */
    var userIntent: Slot<Option<Intent>>

    /**
     The states the two entries can be in: never set, the defaults
     (`False`, `{}`), or a submitted well-formed intent.
     */
    predicate Valid()
      reads this
    {
      match (intentSubmitted, userIntent)
      case (Absent, Absent) => true
      case (Present(false), Present(None)) => true
      case (Present(true), Present(Some(i))) => WellFormed(i)
      case _ => false
    }

    /** Both entries are set. */
    predicate Initialised()
      reads this
    {
      intentSubmitted.Present? && userIntent.Present?
    }

    /**
     The guard of line 53: the flag is true and the stored dictionary is
     non-empty. In a valid state the flag alone decides it, and a stored
     intent is then well-formed.
     */
    predicate HasIntent()
      reads this
      ensures Valid() ==> (HasIntent() <==> intentSubmitted == Present(true))
      ensures Valid() && HasIntent() ==> WellFormed(userIntent.value.value)
    {
      intentSubmitted == Present(true) && userIntent.Present? && userIntent.value.Some?
    }

    function StoredIntent(): Intent
      requires HasIntent()
      reads this
    {
      userIntent.value.value
    }

    /** A new browser session: neither entry is set. */
    constructor()
      ensures intentSubmitted == Absent && userIntent == Absent
      ensures Valid()
    {
      intentSubmitted := Absent;
      userIntent := Absent;
    }

    /** Lines 47-50: each entry that is not yet set gets its default; a set entry is kept. */
    method Init()
      requires Valid()
      modifies this
      ensures Valid() && Initialised()
      ensures intentSubmitted == (if old(intentSubmitted).Absent? then Present(false) else old(intentSubmitted))
      ensures userIntent == (if old(userIntent).Absent? then Present(None) else old(userIntent))
    {
      if intentSubmitted.Absent? {
        intentSubmitted := Present(false);
      }
      if userIntent.Absent? {
        userIntent := Present(None);
      }
    }

    /**
     Lines 82-94, a submitted form: with a goal that is more than whitespace
     the intent built from the form is stored, the flag set and the page rerun;
     otherwise the error is shown, the run stops and neither entry changes.
     */
    method Submit(form: FormInput) returns (outcome: Outcome)
      requires Valid() && Initialised()
      modifies this
      ensures Valid() && Initialised()
      ensures GoalGiven(form.goal) ==>
        && outcome == Rerun
        && intentSubmitted == Present(true)
        && userIntent == Present(Some(MakeIntent(form)))
      ensures !GoalGiven(form.goal) ==>
        && outcome == Halt(Some(MissingGoalMessage))
        && intentSubmitted == old(intentSubmitted)
        && userIntent == old(userIntent)
    {
      if GoalGiven(form.goal) {
        userIntent := Present(Some(MakeIntent(form)));
        intentSubmitted := Present(true);
        outcome := Rerun;
      } else {
        outcome := Halt(Some(MissingGoalMessage));
      }
    }

    /**
     One run of `collect_user_intent`, where `submission` is the form as it
     stands when "Confirm & Upload" was pressed in this run, or None when it
     was not.
     - A stored intent is returned and nothing changes (lines 53-54).
     - Otherwise a submission is handled as `Submit` says.
     - Otherwise the run stops without an intent (lines 96-97), and the
       entries keep their values, set to their defaults if they were unset.
     */
    method Collect(submission: Option<FormInput>) returns (outcome: Outcome)
      requires Valid()
      modifies this
      ensures Valid() && Initialised()
      ensures outcome.Ready? ==> WellFormed(outcome.intent)
      ensures old(HasIntent()) ==>
        && outcome == Ready(old(StoredIntent()))
        && intentSubmitted == old(intentSubmitted)
        && userIntent == old(userIntent)
      ensures !old(HasIntent()) && submission.Some? && GoalGiven(submission.value.goal) ==>
        && outcome == Rerun
        && intentSubmitted == Present(true)
        && userIntent == Present(Some(MakeIntent(submission.value)))
      ensures !old(HasIntent()) && (submission.None? || !GoalGiven(submission.value.goal)) ==>
        && outcome == (if submission.Some? then Halt(Some(MissingGoalMessage)) else Halt(None))
        && intentSubmitted == Present(false)
        && userIntent == Present(None)
        && (old(Initialised()) ==> intentSubmitted == old(intentSubmitted) && userIntent == old(userIntent))
    {
      Init();
      if intentSubmitted.value && userIntent.value.Some? {
        return Ready(userIntent.value.value);
      }
      match submission {
        case Some(form) =>
          outcome := Submit(form);
          if outcome.Halt? || outcome.Rerun? {
            return;
          }
        case None =>
      }
      if !intentSubmitted.value {
        return Halt(None);
      }
      // Line 99 is reached only with the flag set and an empty dictionary,
      // which no valid state holds.
      assert false;
    }

    /**
     Lines 162-165, "Extract Another PDF": whatever the state, the flag is
     cleared, the stored intent emptied and the page rerun.
     */
    method Reset() returns (outcome: Outcome)
      modifies this
      ensures intentSubmitted == Present(false) && userIntent == Present(None)
      ensures outcome == Rerun
      ensures Valid() && !HasIntent()
    {
      intentSubmitted := Present(false);
      userIntent := Present(None);
      outcome := Rerun;
    }
  }

  /** First page loads: nothing submitted stops the run, and a blank goal is refused. */
  method RefusedWalkthrough() {
    var session := new SessionState();
    var o := session.Collect(None);
    assert o == Halt(None);

    var blank := FormInput("   ", "Total", Table, "");
    assert !GoalGiven(blank.goal) by {
      StripUnique("   ", "", "");
      assert "   " + "" + "" == blank.goal;
    }
    o := session.Collect(Some(blank));
    assert o == Halt(Some(MissingGoalMessage));
    assert !session.HasIntent();
  }

  /** A form with a real goal is stored, handed back on the next runs, and cleared by the reset. */
  method StoredWalkthrough(form: FormInput)
    requires GoalGiven(form.goal)
  {
    var session := new SessionState();
    var o := session.Collect(Some(form));
    assert o == Rerun;

    o := session.Collect(None);
    assert o == Ready(MakeIntent(form));
    o := session.Collect(Some(form));
    assert o == Ready(MakeIntent(form));
    assert o.intent.goal == Strip(form.goal) != "";

    o := session.Reset();
    o := session.Collect(None);
    assert o == Halt(None);
  }
}
