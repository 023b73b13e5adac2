/** The button rule of the patched end-session dialog (`_updateButtons`):
    which buttons the dialog shows, and in which order. */
module EndSession {
  import opened Results

  datatype ButtonSpec = ButtonSpec(signal: string, text: string)

  /** The part of a dialog content entry that `_updateButtons` reads;
      `secondaryButtons` may be missing. */
  datatype DialogContent = DialogContent(secondaryButtons: Option<seq<ButtonSpec>>, confirmButtons: seq<ButtonSpec>)

  /** What the power-management client reports. */
  datatype UpClient = UpClient(canSuspend: bool, canHibernate: bool)

  datatype Action = Hibernate | Suspend | Confirm(signal: string) | Cancel

  datatype Key = Escape

  datatype Button = Button(action: Action, text: string, key: Option<Key>)

  const SuspendSignal := "ConfirmedSuspend"
  const HibernateSignal := "ConfirmedHibernate"

  const CancelButton := Button(Cancel, "Cancel", Some(Escape))

  /** The content the extension installs for the shutdown dialog. */
  const ShutdownDialogContent :=
    DialogContent(
      Some([ButtonSpec("ConfirmedSuspend", "Suspend"),
            ButtonSpec("ConfirmedHibernate", "Hibernate"),
            ButtonSpec("ConfirmedReboot", "Restart")]),
      [ButtonSpec("ConfirmedShutdown", "Power Off")])

  /** The buttons one secondary entry yields: Suspend and Hibernate only when
      a client is present and reports the capability. */
  function SecondaryButton(spec: ButtonSpec, up: Option<UpClient>): (r: seq<Button>) {
    if spec.signal == HibernateSignal then
      (if up.Some? && up.value.canHibernate then [Button(Hibernate, spec.text, None)] else [])
    else if spec.signal == SuspendSignal then
      (if up.Some? && up.value.canSuspend then [Button(Suspend, spec.text, None)] else [])
    else [Button(Confirm(spec.signal), spec.text, None)]
  }

  function SecondaryButtons(specs: seq<ButtonSpec>, up: Option<UpClient>): (r: seq<Button>) {
    if specs == [] then []
    else SecondaryButtons(specs[..|specs| - 1], up) + SecondaryButton(specs[|specs| - 1], up)
  }

  function ConfirmButtons(specs: seq<ButtonSpec>): (r: seq<Button>) {
    if specs == [] then []
    else ConfirmButtons(specs[..|specs| - 1]) + [Button(Confirm(specs[|specs| - 1].signal), specs[|specs| - 1].text, None)]
  }

  function Secondaries(content: DialogContent, up: Option<UpClient>): (r: seq<Button>) {
    if content.secondaryButtons.Some? then SecondaryButtons(content.secondaryButtons.value, up) else []
  }

  /** The list `_updateButtons` hands to `setButtons`. */
  function DialogButtons(content: DialogContent, up: Option<UpClient>): (r: seq<Button>) {
    Secondaries(content, up) + [CancelButton] + ConfirmButtons(content.confirmButtons)
  }

  /** `_updateButtons`, minus binding the actions to the dialog. */
  method UpdateButtons(content: DialogContent, up: Option<UpClient>) returns (buttons: seq<Button>)
    ensures buttons == DialogButtons(content, up)
  {
    buttons := [];
    if content.secondaryButtons.Some? {
      var specs := content.secondaryButtons.value;
      for i := 0 to |specs|
        invariant buttons == SecondaryButtons(specs[..i], up)
      {
        assert specs[..i + 1][..i] == specs[..i];
        var spec := specs[i];
        if spec.signal == HibernateSignal {
          if up.Some? && up.value.canHibernate {
            buttons := buttons + [Button(Hibernate, spec.text, None)];
          }
        } else if spec.signal == SuspendSignal {
          if up.Some? && up.value.canSuspend {
            buttons := buttons + [Button(Suspend, spec.text, None)];
          }
        } else {
          buttons := buttons + [Button(Confirm(spec.signal), spec.text, None)];
        }
      }
      assert specs[..|specs|] == specs;
    }
    buttons := buttons + [CancelButton];
    var secondaryAndCancel := buttons;
    var confirms := content.confirmButtons;
    for i := 0 to |confirms|
      invariant buttons == secondaryAndCancel + ConfirmButtons(confirms[..i])
    {
      assert confirms[..i + 1][..i] == confirms[..i];
      buttons := buttons + [Button(Confirm(confirms[i].signal), confirms[i].text, None)];
    }
    assert confirms[..|confirms|] == confirms;
  }

  // Properties of the rule.

  /** The secondaries of a concatenation are those of its parts, in order. */
  lemma {:induction false} SecondaryButtonsAppend(s: seq<ButtonSpec>, t: seq<ButtonSpec>, up: Option<UpClient>)
    ensures SecondaryButtons(s + t, up) == SecondaryButtons(s, up) + SecondaryButtons(t, up)
  {
    if t == [] {
      assert s + t == s;
    } else {
      assert (s + t)[..|s + t| - 1] == s + t[..|t| - 1];
      SecondaryButtonsAppend(s, t[..|t| - 1], up);
    }
  }

  /** A Suspend button is shown iff the client exists, can suspend and a
      Suspend entry is listed; likewise for Hibernate. */
  lemma {:induction false} PowerButtonsIff(specs: seq<ButtonSpec>, up: Option<UpClient>, text: string)
    ensures Button(Suspend, text, None) in SecondaryButtons(specs, up) <==>
      up.Some? && up.value.canSuspend && ButtonSpec(SuspendSignal, text) in specs
    ensures Button(Hibernate, text, None) in SecondaryButtons(specs, up) <==>
      up.Some? && up.value.canHibernate && ButtonSpec(HibernateSignal, text) in specs
  {
    if specs != [] {
      var init := specs[..|specs| - 1];
      PowerButtonsIff(init, up, text);
      assert specs == init + [specs[|specs| - 1]];
    }
  }

  /** The entries that are neither Suspend nor Hibernate, in order. */
  function NonPower(specs: seq<ButtonSpec>): (r: seq<ButtonSpec>) {
    if specs == [] then []
    else
      var last := specs[|specs| - 1];
      NonPower(specs[..|specs| - 1]) +
        (if last.signal != SuspendSignal && last.signal != HibernateSignal then [last] else [])
  }

  /** The buttons of `bs` that confirm a signal, in order. */
  function ConfirmsOf(bs: seq<Button>): (r: seq<Button>) {
    if bs == [] then []
    else ConfirmsOf(bs[..|bs| - 1]) + (if bs[|bs| - 1].action.Confirm? then [bs[|bs| - 1]] else [])
  }

  lemma {:induction false} ConfirmsOfAppend(s: seq<Button>, t: seq<Button>)
    ensures ConfirmsOf(s + t) == ConfirmsOf(s) + ConfirmsOf(t)
  {
    if t == [] {
      assert s + t == s;
    } else {
      assert (s + t)[..|s + t| - 1] == s + t[..|t| - 1];
      ConfirmsOfAppend(s, t[..|t| - 1]);
    }
  }

  /** In any list of secondary entries, the entries other than Suspend and
      Hibernate are all shown, as their Confirm buttons and in their order,
      whatever the client reports. */
  lemma {:induction false} OtherSecondariesAlwaysShown(specs: seq<ButtonSpec>, up: Option<UpClient>)
    ensures ConfirmsOf(SecondaryButtons(specs, up)) == ConfirmButtons(NonPower(specs))
  {
    if specs != [] {
      var init := specs[..|specs| - 1];
      var last := specs[|specs| - 1];
      OtherSecondariesAlwaysShown(init, up);
      var one := SecondaryButton(last, up);
      assert SecondaryButtons(specs, up) == SecondaryButtons(init, up) + one;
      ConfirmsOfAppend(SecondaryButtons(init, up), one);
      if last.signal == SuspendSignal || last.signal == HibernateSignal {
        assert NonPower(specs) == NonPower(init) + [] == NonPower(init);
        assert ConfirmsOf(one) == [] by {
          if one != [] {
            assert one[..0] == [];
          }
        }
      } else {
        var others := NonPower(init) + [last];
        assert NonPower(specs) == others;
        assert others[..|others| - 1] == NonPower(init);
        assert one == [Button(Confirm(last.signal), last.text, None)];
        assert one[..0] == [];
      }
    }
  }

  /** Every secondary button that does not confirm a signal is a power button. */
  lemma {:induction false} SecondaryNonConfirmsArePower(specs: seq<ButtonSpec>, up: Option<UpClient>)
    ensures forall b | b in SecondaryButtons(specs, up) && !b.action.Confirm? ::
      b.action == Suspend || b.action == Hibernate
  {
    if specs != [] {
      SecondaryNonConfirmsArePower(specs[..|specs| - 1], up);
    }
  }

  /** Every confirm entry yields its button, in the entries' order. */
  lemma {:induction false} ConfirmButtonsAt(specs: seq<ButtonSpec>, k: nat)
    requires k < |specs|
    ensures |ConfirmButtons(specs)| == |specs|
    ensures ConfirmButtons(specs)[k] == Button(Confirm(specs[k].signal), specs[k].text, None)
  {
    var init := specs[..|specs| - 1];
    if k < |init| {
      ConfirmButtonsAt(init, k);
    } else if init != [] {
      ConfirmButtonsAt(init, 0);
    }
  }

  lemma {:induction false} SecondaryButtonsUnbound(specs: seq<ButtonSpec>, up: Option<UpClient>)
    ensures forall b | b in SecondaryButtons(specs, up) :: b.key.None? && b.action != Cancel
  {
    if specs != [] {
      SecondaryButtonsUnbound(specs[..|specs| - 1], up);
    }
  }

  lemma {:induction false} ConfirmButtonsUnbound(specs: seq<ButtonSpec>)
    ensures forall b | b in ConfirmButtons(specs) :: b.key.None? && b.action != Cancel
  {
    if specs != [] {
      ConfirmButtonsUnbound(specs[..|specs| - 1]);
    }
  }

  /** Cancel follows the secondaries and precedes the confirm buttons, and it is
      the only button bound to Escape and the only Cancel. */
  lemma CancelBetween(content: DialogContent, up: Option<UpClient>)
    ensures var buttons := DialogButtons(content, up);
            var n := |Secondaries(content, up)|;
            n < |buttons| && buttons[n] == CancelButton &&
            buttons[..n] == Secondaries(content, up) &&
            buttons[n + 1..] == ConfirmButtons(content.confirmButtons) &&
            forall i | 0 <= i < |buttons| :: (buttons[i].key == Some(Escape) <==> i == n) &&
                                              (buttons[i].action == Cancel <==> i == n)
  {
    var buttons := DialogButtons(content, up);
    var n := |Secondaries(content, up)|;
    if content.secondaryButtons.Some? {
      SecondaryButtonsUnbound(content.secondaryButtons.value, up);
    }
    ConfirmButtonsUnbound(content.confirmButtons);
    forall i | 0 <= i < |buttons| && i != n
      ensures buttons[i].key.None? && buttons[i].action != Cancel
    {
      if i < n {
        assert buttons[i] in Secondaries(content, up);
      } else {
        assert buttons[i] == ConfirmButtons(content.confirmButtons)[i - n - 1];
      }
    }
  }

  /** With the installed shutdown content: [Suspend?, Hibernate?, Restart, Cancel, Power Off]. */
  lemma ShutdownDialogButtons(up: Option<UpClient>)
    ensures DialogButtons(ShutdownDialogContent, up) ==
      (if up.Some? && up.value.canSuspend then [Button(Suspend, "Suspend", None)] else []) +
      (if up.Some? && up.value.canHibernate then [Button(Hibernate, "Hibernate", None)] else []) +
      [Button(Confirm("ConfirmedReboot"), "Restart", None), CancelButton,
       Button(Confirm("ConfirmedShutdown"), "Power Off", None)]
  {
    var specs := ShutdownDialogContent.secondaryButtons.value;
    assert specs[..2][..1] == specs[..1] == [specs[0]];
    assert specs[..|specs| - 1] == specs[..2];
    assert specs[..2][..|specs[..2]| - 1] == specs[..1];
    assert specs[..1][..0] == [];
    var suspend := if up.Some? && up.value.canSuspend then [Button(Suspend, "Suspend", None)] else [];
    var hibernate := if up.Some? && up.value.canHibernate then [Button(Hibernate, "Hibernate", None)] else [];
    assert SecondaryButtons(specs[..1], up) == suspend;
    assert SecondaryButtons(specs[..2], up) == suspend + hibernate;
    assert SecondaryButtons(specs, up) == suspend + hibernate + [Button(Confirm("ConfirmedReboot"), "Restart", None)];
    assert ConfirmButtons(ShutdownDialogContent.confirmButtons) == [Button(Confirm("ConfirmedShutdown"), "Power Off", None)];
  }
}
