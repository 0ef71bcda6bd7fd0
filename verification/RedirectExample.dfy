/** Two redirect lists that repeat a target: one leaves a descriptor behind, one
    is undone. */
module RedirectExample {
  import opened Prelude
  import opened Tokens
  import opened Ast
  import opened Descriptors
  import opened ExecSpec
  import opened TinyPrograms

  lemma Step(r: Redirect, rs: seq<Redirect>, s: State, saved: seq<Backup>)
    requires ApplyOne(r, s, saved, true, PlainFiles()).verdict.Done?
    ensures var a := ApplyOne(r, s, saved, true, PlainFiles());
            ApplyRedirects([r] + rs, s, saved, true, PlainFiles()) == ApplyRedirects(rs, a.s, a.saved, true, PlainFiles())
  {
    assert ([r] + rs)[1..] == rs;
  }

  /** `3>x 1>y 3>&-` with 3 closed. Opening x gives out 3 itself, so 3 ends up
      closed; the backup of 1 then takes number 3; the second redirection of 3
      is not saved again and closes that backup. Standard output stays on y. */
  lemma RepeatLosesDescriptor()
    ensures var rs := [To(3, Great, "x"), To(1, Great, "y"), To(3, GreatAnd, "-")];
            var a := ApplyRedirects(rs, ThreeOpen(), [], true, PlainFiles());
            && a.verdict.Done?
            && Undo(a.s.fds, a.saved) == map[0 := 100, 1 := 201, 2 := 102] != ThreeOpen().fds
  {
    hide ApplyRedirects;
    var r1, r2, r3 := To(3, Great, "x"), To(1, Great, "y"), To(3, GreatAnd, "-");
    var s := ThreeOpen();
    TextIs("x");
    TextIs("y");
    TextIs("-");
    var a1 := ApplyOne(r1, s, [], true, PlainFiles());
    assert LowestFree(s.fds) == 3;
    assert a1 == Applied(Done, s.(mem := s.mem.(world := 201)), [Backup(3, None)]);
    var a2 := ApplyOne(r2, a1.s, a1.saved, true, PlainFiles());
    var t2 := map[0 := 100, 1 := 201, 2 := 102, 3 := 101];
    BackupTakesThree(a1.s, a1.saved, r2);
    assert a2.s.fds == t2 && a2.saved == [Backup(3, None), Backup(1, Some(3))] && a2.verdict.Done?;
    var a3 := ApplyOne(r3, a2.s, a2.saved, true, PlainFiles());
    assert IsSaved(a2.saved, 3) by { assert a2.saved[0].target == 3; }
    assert a3.s.fds == map[0 := 100, 1 := 201, 2 := 102] && a3.saved == a2.saved && a3.verdict.Done?;
    assert [r1] + ([r2] + ([r3] + [])) == [r1, r2, r3];
    Step(r1, [r2] + ([r3] + []), s, []);
    Step(r2, [r3] + [], a1.s, a1.saved);
    Step(r3, [], a2.s, a2.saved);
    NothingToApply(a3.s, a3.saved, PlainFiles());
    UndoBoth(a3.s.fds);
  }

  /** Neither condition holds of it: 3 occurs twice and is closed at the start, and
      not every step is harmless. */
  lemma LossIsForeseen()
    ensures var rs := [To(3, Great, "x"), To(1, Great, "y"), To(3, GreatAnd, "-")];
            && !RepeatsAreOpen(rs, ThreeOpen().fds, PlainFiles())
            && !EveryStepHarmless(rs, ThreeOpen(), [], PlainFiles())
  {
    hide ApplyRedirects, EveryStepHarmless, Undo, NeverCloses;
    var rs, s := [To(3, Great, "x"), To(1, Great, "y"), To(3, GreatAnd, "-")], ThreeOpen();
    RepeatLosesDescriptor();
    assert TargetFd(rs[0]) == 3 == TargetFd(rs[2]) && 3 !in s.fds;
    UndoNothing(s.fds);
    UndoneThroughoutIff(rs, s, [], PlainFiles());
    assert rs[..3] == rs;
    assert !UndoneAfter(rs, 3, s, [], PlainFiles(), s.fds);
  }

  /** The third redirection of that list: 3 is saved already, its number holds
      the backup of 1, and losing that backup is not harmless. */
  lemma ThirdStepStrikes()
    ensures var t, saved := map[0 := 100, 1 := 201, 2 := 102, 3 := 101], [Backup(3, None), Backup(1, Some(3))];
            Sound(t, saved) && IsSaved(saved, 3) && !Protected(saved, 3) && 3 in t && !LosesNothing(t, saved, 3)
  {
    var t, saved := map[0 := 100, 1 := 201, 2 := 102, 3 := 101], [Backup(3, None), Backup(1, Some(3))];
    assert saved[0].target == 3 && saved[..1] == [Backup(3, None)] && [Backup(3, None)][..0] == [];
    var t1 := map[0 := 100, 1 := 101, 2 := 102];
    assert RestoreOne(t, saved[1]) == t1 && RestoreOne(t1, saved[0]) == t1;
    assert !IsSaved([Backup(3, None)], 1);
    assert Sound(t1, []) && Sound(t1, [Backup(3, None)]);
    assert !Harmless(t1, [], 1, Some(201));
    assert !Harmless(t1, [Backup(3, None)], 1, Some(201));
  }

  /** `1>a 2>&1 1>b` repeats an open target that it does not close. */
  lemma LoggingIsUndone()
    ensures var rs := [To(1, Great, "a"), To(2, GreatAnd, "1"), To(1, Great, "b")];
            var a := ApplyRedirects(rs, ThreeOpen(), [], true, PlainFiles());
            Undo(a.s.fds, a.saved) == ThreeOpen().fds
  {
    var rs := [To(1, Great, "a"), To(2, GreatAnd, "1"), To(1, Great, "b")];
    OpenRepeatsAreUndone(rs, ThreeOpen(), PlainFiles());
  }

  /** `3>x` with 0 to 2 open: x is opened, and 3 ends up closed. */
  lemma ThirdStaysClosed()
    ensures var r, s := To(3, Great, "x"), ThreeOpen();
            && OpensFile(r, s, PlainFiles()) == Some(200)
            && ApplyOne(r, s, [], true, PlainFiles()).verdict.Done?
            && 3 !in ApplyOne(r, s, [], true, PlainFiles()).s.fds
  {
    hide ApplyOne;
    var r, s := To(3, Great, "x"), ThreeOpen();
    TextIs("x");
    assert 0 in s.fds && 1 in s.fds && 2 in s.fds && 3 !in s.fds;
    OpenedReachesTargetIff(r, s, [], true, PlainFiles());
  }

  lemma BackupTakesThree(s: State, saved: seq<Backup>, r: Redirect)
    requires s.fds == map[0 := 100, 1 := 101, 2 := 102] && s.mem.world == 201
    requires saved == [Backup(3, None)] && r == To(1, Great, "y") && FlattenText([Literal("y")]) == "y"
    ensures var a := ApplyOne(r, s, saved, true, PlainFiles());
            && a.verdict.Done? && a.saved == [Backup(3, None), Backup(1, Some(3))]
            && a.s.fds == map[0 := 100, 1 := 201, 2 := 102, 3 := 101]
  {
    assert 0 in s.fds && 1 in s.fds && 2 in s.fds && 3 !in s.fds;
    assert LowestFree(s.fds) == 3;
    assert !IsSaved(saved, 1);
    var t := s.fds[3 := 101];
    assert 0 in t && 1 in t && 2 in t && 3 in t && 4 !in t;
    assert Save(s.fds, saved, 1) == (t, saved + [Backup(1, Some(3))]);
    assert LowestFree(t) == 4;
  }

  lemma UndoBoth(t: Table)
    requires t == map[0 := 100, 1 := 201, 2 := 102]
    ensures Undo(t, [Backup(3, None), Backup(1, Some(3))]) == t
  {
    var saved := [Backup(3, None), Backup(1, Some(3))];
    assert saved[..1] == [Backup(3, None)] && [Backup(3, None)][..0] == [];
    assert RestoreOne(t, saved[1]) == t && RestoreOne(t, saved[0]) == t;
    assert Undo(t, [Backup(3, None)]) == Undo(RestoreOne(t, saved[0]), []);
  }
}
