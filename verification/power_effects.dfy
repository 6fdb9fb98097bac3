/** How much of the context, and which targets, one handler of the power machine can touch. */
module PowerEffects {
  import opened Common
  import opened PowerMachine

  /** The states in which the 5 V rail is up. */
  predicate Powered(s: State) {
    !s.PowerOff? && !s.OffCharging? && !s.PoweredDownBlackout? && !s.PoweredDownManual?
  }

  predicate HasEntryTime(s: State) {
    5 <= StateNumber(s) <= 12
  }

  /** The superstates: ping, alarm and LED only, and targets made now. */
  lemma {:induction false} SuperstateEffects(s: Option<Superstate>, e: Event, c: Context, env: Env)
    ensures var (o, c') := Climb(s, e, c, env);
            && c' == c.(lastPing := c'.lastPing, alarmActive := c'.alarmActive, led := c'.led)
            && (c'.lastPing == c.lastPing || c'.lastPing == env.check)
            && ((c'.led == c.led && c'.alarmActive == c.alarmActive)
                || (!o.Transition? && s.Some? && c'.led == Some(AlarmPattern) && c'.alarmActive))
            && (o.Transition? ==>
                  && s.Some?
                  && (o.target == PoweredDownManual(env.made) || o.target == ManualShutdown(env.made)
                      || o.target == EnteringStandby(env.made)))
            && !o.Reset?
    decreases Height(s)
  {
    if s.Some? {
      SuperstateEffects(Grandparent(s.value), e, SuperHandler(s.value, e, c, env).1, env);
    }
  }

  /** A state's own handler: watchdog, ping and click counter only, and targets made now. */
  lemma {:induction false} HandlerEffects(s: State, e: Event, c: Context, env: Env)
    ensures var (o, c') := StateHandler(s, e, c, env);
            && c' == c.(watchdogMs := c'.watchdogMs, lastPing := c'.lastPing, doubleClicks := c'.doubleClicks)
            && (c'.lastPing == c.lastPing || c'.lastPing == env.check)
            && c'.doubleClicks == c.doubleClicks +
               (if s.BlackoutSolo? && o.Transition? && o.target.BlackoutShutdown? then 1 else 0)
  {
  }

  lemma {:induction false} HandlerTargets(s: State, e: Event, c: Context, env: Env)
    ensures var o := StateHandler(s, e, c, env).0;
            o.Transition? ==>
              && (HasEntryTime(o.target) ==> o.target.entryTime == env.made)
              && (|| (Powered(o.target) <==> Powered(s))
                  || o.target.PowerOff? || o.target.SystemStartup?
                  || o.target.PoweredDownBlackout? || o.target.PoweredDownManual?)
  {
  }

  lemma {:induction false} HandleInitializes(m: Machine, e: Event, env: Env)
    requires Handle(m, e, env).Some?
    ensures Handle(m, e, env).value.initialized
  {
    hide Dispatch;
  }
}
