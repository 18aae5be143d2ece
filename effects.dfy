/**
 * The timed effect pool: a fixed array of tagged slots, each holding one
 * short-lived visual effect (flash, shake, damage number, card highlight)
 * with a countdown timer, advanced once per frame by `Update` and drawn by
 * `Render` into screen and colour memory. A single shared backup buffer
 * holds the row a shake effect displaces, so that the row can be restored
 * when the shake expires.
 */
module Effects {
  import opened Ui

  /** Number of slots in the pool (MAX_ACTIVE_EFFECTS). */
  const MaxActiveEffects: nat := 8

  /** The "no slot" / "no card" answer of the slot searches. */
  const NoSlot: Byte := 0xFF

  /** Size of the shared shake backup buffer. */
  const ShakeBackupSize: nat := 40

  /** Colours of damage numbers: damage dealt to the enemy, damage taken by the player. */
  const ColorRed: Byte := 2
  const ColorLightRed: Byte := 10

  /** Durations, in frames, of the four kinds of effect. */
  const FlashFrames: Byte := 6
  const ShakeFrames: Byte := 6
  const DamageFrames: Byte := 30
  const HighlightFrames: Byte := 4

  /** Slot tags; `None` marks a free slot. */
  datatype EffectType = None | Flash | Shake | DamageNum | Highlight

  /** One slot of the pool. */
  datatype Effect = Effect(kind: EffectType, x: Byte, y: Byte, width: Byte, height: Byte,
                           timer: Byte, param1: Byte, param2: Byte)

  /** The content of a slot of zero-initialised static storage. */
  const ZeroEffect := Effect(None, 0, 0, 0, 0, 0, 0, 0)

  /** The memory that `Update` and `Render` read and write besides the slots. */
  datatype Memory = Memory(screen: seq<Byte>, colors: seq<Byte>, backup: seq<Byte>, backupValid: bool)

  // ---------------------------------------------------------------------
  // Slots as values
  // ---------------------------------------------------------------------

  /** Index of the lowest slot tagged `k`, or `|s|` when there is none. */
  function FirstOf(s: seq<Effect>, k: EffectType): (r: nat)
    ensures r <= |s|
    ensures r < |s| ==> s[r].kind == k
    ensures forall j :: 0 <= j < r ==> s[j].kind != k
  {
    if s == [] then 0 else if s[0].kind == k then 0 else 1 + FirstOf(s[1..], k)
  }

  /** Number of live (non-free) slots. */
  function CountLive(s: seq<Effect>): (n: nat)
    ensures n <= |s|
    ensures n == 0 <==> forall j :: 0 <= j < |s| ==> s[j].kind == None
    ensures n == |s| <==> forall j :: 0 <= j < |s| ==> s[j].kind != None
  {
    if s == [] then 0
    else CountLive(s[..|s| - 1]) + (if s[|s| - 1].kind != None then 1 else 0)
  }

  /** Replacing one slot changes the live count by what the slot's liveness changes. */
  lemma {:induction false} CountLiveUpdate(s: seq<Effect>, i: nat, e: Effect)
    requires i < |s|
    ensures CountLive(s[i := e]) + (if s[i].kind != None then 1 else 0)
         == CountLive(s) + (if e.kind != None then 1 else 0)
  {
    var t := s[i := e];
    if i < |s| - 1 {
      var init := s[..|s| - 1];
      var last := if s[|s| - 1].kind != None then 1 else 0;
      assert t[..|t| - 1] == init[i := e] && t[|t| - 1] == s[|s| - 1];
      assert CountLive(t) == CountLive(init[i := e]) + last;
      assert CountLive(s) == CountLive(init) + last;
      CountLiveUpdate(init, i, e);
    } else {
      assert t[..|t| - 1] == s[..|s| - 1];
    }
  }

  /** The pool after an add request: the effect goes into the lowest free slot, or is dropped when none is free. */
  function Place(s: seq<Effect>, e: Effect): seq<Effect> {
    var f := FirstOf(s, None);
    if f == |s| then s else s[f := e]
  }

  /**
   * What an add request does to the pool: on a full pool nothing changes;
   * otherwise exactly the lowest free slot receives the effect, every other
   * slot is untouched, and a live effect raises the live count by one.
   */
  lemma PlaceSpec(s: seq<Effect>, e: Effect)
    ensures |Place(s, e)| == |s|
    ensures (forall j :: 0 <= j < |s| ==> s[j].kind != None) ==> Place(s, e) == s
    ensures forall i :: 0 <= i < |s| && s[i].kind == None && (forall j :: 0 <= j < i ==> s[j].kind != None) ==>
      Place(s, e)[i] == e && forall j :: 0 <= j < |s| && j != i ==> Place(s, e)[j] == s[j]
    ensures e.kind != None ==>
      CountLive(Place(s, e)) == if CountLive(s) == |s| then CountLive(s) else CountLive(s) + 1
  {
    var f := FirstOf(s, None);
    if f < |s| {
      CountLiveUpdate(s, f, e);
    }
  }

  /** One frame of a slot's countdown: a live timer drops by one (never below zero) and the slot is freed when it reaches zero. */
  function Tick(e: Effect): Effect {
    if e.kind == None then e
    else
      var timer := if e.timer > 0 then e.timer - 1 else e.timer;
      if timer == 0 then e.(timer := 0, kind := None) else e.(timer := timer)
  }

  /** Every slot ticked once. */
  function Ticked(s: seq<Effect>): (r: seq<Effect>)
    ensures |r| == |s|
  {
    seq(|s|, i requires 0 <= i < |s| => Tick(s[i]))
  }

  /** A slot ticked `n` times. */
  function TickN(e: Effect, n: nat): Effect {
    if n == 0 then e else Tick(TickN(e, n - 1))
  }

  /**
   * The lifetime of an effect: a live slot with timer `t > 0` stays live
   * with the same tag and the timer counting down by exactly one per frame
   * for `t - 1` frames, and is free after exactly `t` frames. Its position,
   * size and parameters never change.
   */
  lemma {:induction false} Lifetime(e: Effect, n: nat)
    requires e.kind != None && 0 < e.timer
    requires n <= e.timer
    ensures TickN(e, n).timer == e.timer - n
    ensures n < e.timer ==> TickN(e, n).kind == e.kind
    ensures n == e.timer ==> TickN(e, n).kind == None
    ensures TickN(e, n).(kind := e.kind, timer := e.timer) == e
  {
    if n > 0 {
      Lifetime(e, n - 1);
    }
  }

  /**
   * One frame of a slot: a free slot stays as it is; a live timer drops by
   * exactly one and never below zero, and the slot is freed exactly when the
   * new timer is zero. No other field changes and no timer grows.
   */
  lemma TickSpec(e: Effect)
    ensures Tick(e).timer <= e.timer
    ensures e.kind == None ==> Tick(e) == e
    ensures e.kind != None ==>
      Tick(e).timer == (if e.timer > 0 then e.timer - 1 else 0) &&
      (Tick(e).kind == None <==> Tick(e).timer == 0) &&
      (Tick(e).kind != None ==> Tick(e).kind == e.kind)
    ensures Tick(e).(kind := e.kind, timer := e.timer) == e
  {
  }

  /** Ticking every slot never raises the live count. */
  lemma {:induction false} TickedCount(s: seq<Effect>)
    ensures CountLive(Ticked(s)) <= CountLive(s)
  {
    if s != [] {
      assert Ticked(s)[..|s| - 1] == Ticked(s[..|s| - 1]);
      TickedCount(s[..|s| - 1]);
    }
  }

  // ---------------------------------------------------------------------
  // Update: teardown of an expiring shake
  // ---------------------------------------------------------------------

  /** The slot's timer reaches zero on this frame. */
  predicate Expiring(e: Effect) {
    e.kind != None && e.timer <= 1
  }

  /** Index of the lowest shake slot that expires on this frame, or `|s|` when there is none. */
  function FirstExpiringShake(s: seq<Effect>): (r: nat)
    ensures r <= |s|
    ensures r < |s| ==> s[r].kind == Shake && Expiring(s[r])
    ensures forall j :: 0 <= j < r ==> !(s[j].kind == Shake && Expiring(s[j]))
  {
    if s == [] then 0
    else if s[0].kind == Shake && Expiring(s[0]) then 0
    else 1 + FirstExpiringShake(s[1..])
  }

  /** Screen memory with the `w` cells from `offset` on copied back from the backup buffer. */
  function Restore(screen: seq<Byte>, offset: nat, backup: seq<Byte>, w: nat): (r: seq<Byte>)
    requires w <= |backup|
    ensures |r| == |screen|
  {
    seq(|screen|, k requires 0 <= k < |screen| =>
      if offset <= k < offset + w then backup[k - offset] else screen[k])
  }

  /** The expiring shake that restores the screen reads no more than the backup holds and writes inside screen memory. */
  predicate UpdateFits(s: seq<Effect>, backupValid: bool, screenLength: nat) {
    var r := FirstExpiringShake(s);
    backupValid && r < |s| ==>
      s[r].width <= ShakeBackupSize && ScreenOffset(s[r].x, s[r].y) + s[r].width <= screenLength
  }

  /**
   * Screen memory and backup flag after `effects_update`: when the backup
   * is valid, the lowest expiring shake restores its row from the backup
   * and invalidates it (later expiring shakes then find it invalid);
   * otherwise nothing changes.
   */
  function UpdateScreen(s: seq<Effect>, screen: seq<Byte>, backup: seq<Byte>, backupValid: bool): (r: (seq<Byte>, bool))
    requires |backup| == ShakeBackupSize && UpdateFits(s, backupValid, |screen|)
    ensures |r.0| == |screen|
  {
    var r := FirstExpiringShake(s);
    if backupValid && r < |s| then
      (Restore(screen, ScreenOffset(s[r].x, s[r].y), backup, s[r].width), false)
    else (screen, backupValid)
  }

  // ---------------------------------------------------------------------
  // Render
  // ---------------------------------------------------------------------

  /** Row starts of a flash region: row `j` starts at `(y + j) * SCREEN_WIDTH + x`, computed in 16 bits without truncation. */
  function FlashRows(e: Effect): seq<nat> {
    seq<nat>(e.height, j requires 0 <= j < e.height => Cell(e.x, e.y, 0, j))
  }

  /** Screen memory with the `w` cells from `offset` on moved one cell right; the first keeps its value. */
  function ShiftRight(s: seq<Byte>, offset: nat, w: nat): (r: seq<Byte>)
    ensures |r| == |s|
  {
    seq(|s|, k requires 0 <= k < |s| => if offset < k < offset + w then s[k - 1] else s[k])
  }

  /** Screen memory with the `w` cells from `offset` on moved one cell left; the last keeps its value. */
  function ShiftLeft(s: seq<Byte>, offset: nat, w: nat): (r: seq<Byte>)
    requires offset + w <= |s|
    ensures |r| == |s|
  {
    seq(|s|, k requires 0 <= k < |s| => if offset <= k < offset + w - 1 then s[k + 1] else s[k])
  }

  /** The backup buffer after a shake's first frame: its first `min(w, 40)` cells copied from the row. */
  function Snapshot(backup: seq<Byte>, screen: seq<Byte>, offset: nat, w: nat): (r: seq<Byte>)
    requires offset + w <= |screen|
    ensures |r| == |backup|
  {
    seq(|backup|, j requires 0 <= j < |backup| => if j < w then screen[offset + j] else backup[j])
  }

  /** What a slot's render pass reads and writes lies inside the memories; a shake is at least one cell wide. */
  predicate SlotFits(e: Effect, screenLength: nat, colorsLength: nat) {
    match e.kind
    case Flash => RowsFit(FlashRows(e), e.width, colorsLength)
    case Shake => 1 <= e.width && ScreenOffset(e.x, e.y) + e.width <= screenLength
    case _ => true
  }

  predicate PoolFits(s: seq<Effect>, screenLength: nat, colorsLength: nat) {
    forall i :: 0 <= i < |s| ==> SlotFits(s[i], screenLength, colorsLength)
  }

  /** The shake pass: snapshot on the first frame, then a right shift on even timers and a left shift on odd ones. */
  function ShakeStep(e: Effect, m: Memory): (r: Memory)
    requires e.kind == Shake && SlotFits(e, |m.screen|, |m.colors|)
    ensures |r.screen| == |m.screen| && r.colors == m.colors && |r.backup| == |m.backup|
  {
    var offset := ScreenOffset(e.x, e.y);
    var m1 := if e.timer == e.param1 - 1 then
      m.(backup := Snapshot(m.backup, m.screen, offset, if e.width <= |m.backup| then e.width else |m.backup|),
         backupValid := true)
    else m;
    m1.(screen := if e.timer % 2 == 0 then ShiftRight(m1.screen, offset, e.width)
                  else ShiftLeft(m1.screen, offset, e.width))
  }

  /**
   * The shake pass cell by cell. On the frame where the timer is one below
   * its initial value, the first `min(width, 40)` cells of the row are
   * copied into the backup, which becomes valid; on other frames the backup
   * is untouched. An even timer moves the row one cell right, keeping its
   * first cell; an odd timer moves it one cell left, keeping its last cell.
   * Cells outside the row and colour memory never change.
   */
  lemma ShakeStepSpec(e: Effect, m: Memory)
    requires e.kind == Shake && SlotFits(e, |m.screen|, |m.colors|) && |m.backup| == ShakeBackupSize
    ensures var r := ShakeStep(e, m); var offset := ScreenOffset(e.x, e.y);
      && (e.timer == e.param1 - 1 ==>
            r.backupValid && forall j :: 0 <= j < ShakeBackupSize ==>
              r.backup[j] == if j < e.width then m.screen[offset + j] else m.backup[j])
      && (e.timer != e.param1 - 1 ==> r.backup == m.backup && r.backupValid == m.backupValid)
      && r.colors == m.colors
      && (forall k :: 0 <= k < |m.screen| && !(offset <= k < offset + e.width) ==> r.screen[k] == m.screen[k])
      && (e.timer % 2 == 0 ==>
            r.screen[offset] == m.screen[offset] &&
            forall k :: offset < k < offset + e.width ==> r.screen[k] == m.screen[k - 1])
      && (e.timer % 2 == 1 ==>
            r.screen[offset + e.width - 1] == m.screen[offset + e.width - 1] &&
            forall k :: offset <= k < offset + e.width - 1 ==> r.screen[k] == m.screen[k + 1])
  {
  }

  /** One slot's render pass. Damage numbers are drawn by a routine outside this model and highlights by the card renderer. */
  function RenderSlot(e: Effect, m: Memory): (r: Memory)
    requires SlotFits(e, |m.screen|, |m.colors|)
    ensures |r.screen| == |m.screen| && |r.colors| == |m.colors| && |r.backup| == |m.backup|
  {
    match e.kind
    case Flash =>
      if e.timer % 2 == 0 then m.(colors := Paint(m.colors, FlashRows(e), e.width, e.param1)) else m
    case Shake => ShakeStep(e, m)
    case _ => m
  }

  /** The render passes of the first `n` slots, in slot order. */
  function RenderAll(s: seq<Effect>, n: nat, m: Memory): (r: Memory)
    requires n <= |s| && PoolFits(s, |m.screen|, |m.colors|)
    ensures |r.screen| == |m.screen| && |r.colors| == |m.colors| && |r.backup| == |m.backup|
  {
    if n == 0 then m else RenderSlot(s[n - 1], RenderAll(s, n - 1, m))
  }

  /** When every slot but `i` is free, rendering the pool is rendering slot `i`. */
  lemma {:induction false} RenderAllSingle(s: seq<Effect>, i: nat, n: nat, m: Memory)
    requires i < |s| && n <= |s| && PoolFits(s, |m.screen|, |m.colors|)
    requires forall j :: 0 <= j < |s| && j != i ==> s[j].kind == None
    ensures RenderAll(s, n, m) == if i < n then RenderSlot(s[i], m) else m
  {
    if n > 0 {
      RenderAllSingle(s, i, n - 1, m);
    }
  }

  // ---------------------------------------------------------------------
  // The pool
  // ---------------------------------------------------------------------

  class EffectPool {
    /** `effects[]`: the slots. */
    const slots: array<Effect>
    /** `shake_backup[]`: the single shared copy of a shaken row. */
    const backup: array<Byte>
    /** `shake_backup_valid`. */
    var backupValid: bool

    ghost predicate Valid()
      reads this
    {
      slots.Length == MaxActiveEffects && backup.Length == ShakeBackupSize
    }

    /** The zero-initialised static storage before `effects_init` runs. */
    constructor ()
      ensures Valid() && fresh(slots) && fresh(backup)
      ensures slots[..] == seq(MaxActiveEffects, _ => ZeroEffect) && !backupValid
    {
      slots := new Effect[MaxActiveEffects](_ => ZeroEffect);
      backup := new Byte[ShakeBackupSize](_ => 0);
      backupValid := false;
    }

    /** `effects_init`: every slot is tagged free and the backup is invalid; the slots' other fields and the backup's bytes stay. */
    method Init()
      requires Valid()
      modifies slots, this`backupValid
      ensures forall i :: 0 <= i < slots.Length ==> slots[i] == old(slots[i]).(kind := None)
      ensures CountLive(slots[..]) == 0 && !backupValid
    {
      for i := 0 to MaxActiveEffects
        invariant forall j :: 0 <= j < i ==> slots[j] == old(slots[j]).(kind := None)
        invariant forall j :: i <= j < MaxActiveEffects ==> slots[j] == old(slots[j])
      {
        slots[i] := slots[i].(kind := None);
      }
      backupValid := false;
    }

    /** `effects_active_count`: the number of live slots. */
    method ActiveCount() returns (count: Byte)
      requires Valid()
      ensures count == CountLive(slots[..])
    {
      count := 0;
      for i := 0 to MaxActiveEffects
        invariant count == CountLive(slots[..i])
      {
        assert slots[..i + 1][..i] == slots[..i];
        assert CountLive(slots[..i + 1]) == CountLive(slots[..i]) + if slots[i].kind != None then 1 else 0;
        if slots[i].kind != None {
          count := count + 1;
        }
      }
      assert slots[..MaxActiveEffects] == slots[..];
    }

    /** `effects_find_free_slot`: the lowest free slot, or 0xFF exactly when every slot is live. */
    method FindFreeSlot() returns (slot: Byte)
      requires Valid()
      ensures slot == NoSlot <==> forall j :: 0 <= j < slots.Length ==> slots[j].kind != None
      ensures slot != NoSlot ==>
        slot < slots.Length && slots[slot].kind == None &&
        forall j :: 0 <= j < slot ==> slots[j].kind != None
    {
      for i := 0 to MaxActiveEffects
        invariant forall j :: 0 <= j < i ==> slots[j].kind != None
      {
        if slots[i].kind == None {
          return i;
        }
      }
      return NoSlot;
    }

    /** Stores `e` in the slot `FindFreeSlot` picks; a full pool drops it. */
    method Add(e: Effect)
      requires Valid()
      modifies slots
      ensures slots[..] == Place(old(slots[..]), e)
    {
      var slot := FindFreeSlot();
      if slot == NoSlot {
        return;
      }
      slots[slot] := e;
    }

    /** `effects_add_flash`: a six-frame flash of colour `color` over the `w` by `h` region. */
    method AddFlash(x: Byte, y: Byte, w: Byte, h: Byte, color: Byte)
      requires Valid()
      modifies slots
      ensures slots[..] == Place(old(slots[..]), Effect(Flash, x, y, w, h, FlashFrames, color, 0))
    {
      Add(Effect(Flash, x, y, w, h, FlashFrames, color, 0));
    }

    /** `effects_add_shake`: a six-frame shake of the row; `param1` keeps the initial timer so that render can spot the first frame. */
    method AddShake(x: Byte, y: Byte, w: Byte, h: Byte)
      requires Valid()
      modifies slots
      ensures slots[..] == Place(old(slots[..]), Effect(Shake, x, y, w, h, ShakeFrames, ShakeFrames, 0))
    {
      Add(Effect(Shake, x, y, w, h, ShakeFrames, ShakeFrames, 0));
    }

    /** `effects_add_damage`: a thirty-frame damage number, red for damage to the enemy and light red for damage to the player. */
    method AddDamage(x: Byte, y: Byte, value: Byte, toEnemy: Byte)
      requires Valid()
      modifies slots
      ensures slots[..] == Place(old(slots[..]),
        Effect(DamageNum, x, y, 0, 0, DamageFrames, if toEnemy != 0 then ColorRed else ColorLightRed, value))
    {
      var color := if toEnemy != 0 then ColorRed else ColorLightRed;
      Add(Effect(DamageNum, x, y, 0, 0, DamageFrames, color, value));
    }

    /** `effects_add_card_highlight`: a four-frame highlight of hand card `cardIndex`. */
    method AddCardHighlight(cardIndex: Byte)
      requires Valid()
      modifies slots
      ensures slots[..] == Place(old(slots[..]), Effect(Highlight, 0, 0, 0, 0, HighlightFrames, cardIndex, 0))
    {
      Add(Effect(Highlight, 0, 0, 0, 0, HighlightFrames, cardIndex, 0));
    }

    /** `effects_get_highlighted_card`: the card of the lowest highlight slot, or 0xFF when no slot is a highlight. */
    method GetHighlightedCard() returns (card: Byte)
      requires Valid()
      ensures var r := FirstOf(slots[..], Highlight);
        card == if r == slots.Length then NoSlot else slots[r].param1
    {
      for i := 0 to MaxActiveEffects
        invariant forall j :: 0 <= j < i ==> slots[j].kind != Highlight
      {
        if slots[i].kind == Highlight {
          return slots[i].param1;
        }
      }
      return NoSlot;
    }

    /**
     * `effects_update`: every slot ticks once, and the lowest expiring shake
     * restores its row from a valid backup and invalidates it.
     */
    method Update(screen: array<Byte>)
      requires Valid() && screen != backup
      requires UpdateFits(slots[..], backupValid, screen.Length)
      modifies slots, screen, this`backupValid
      ensures slots[..] == Ticked(old(slots[..]))
      ensures (screen[..], backupValid) == UpdateScreen(old(slots[..]), old(screen[..]), backup[..], old(backupValid))
    {
      ghost var s, f := slots[..], FirstExpiringShake(slots[..]);
      for i := 0 to MaxActiveEffects
        invariant forall j :: 0 <= j < i ==> slots[j] == Tick(s[j])
        invariant forall j :: i <= j < MaxActiveEffects ==> slots[j] == s[j]
        invariant if old(backupValid) && f < i
          then screen[..] == Restore(old(screen[..]), ScreenOffset(s[f].x, s[f].y), backup[..], s[f].width) && !backupValid
          else screen[..] == old(screen[..]) && backupValid == old(backupValid)
      {
        UpdateSlot(screen, i);
      }
    }

    /** One slot of `effects_update`: its timer ticks, and an expiring shake restores its row while the backup is valid. */
    method UpdateSlot(screen: array<Byte>, i: nat)
      requires Valid() && screen != backup && i < MaxActiveEffects
      requires slots[i].kind == Shake && Expiring(slots[i]) && backupValid ==>
        slots[i].width <= ShakeBackupSize && ScreenOffset(slots[i].x, slots[i].y) + slots[i].width <= screen.Length
      modifies slots, screen, this`backupValid
      ensures slots[..] == old(slots[..])[i := Tick(old(slots[i]))]
      ensures var e := old(slots[i]);
        if e.kind == Shake && Expiring(e) && old(backupValid)
        then screen[..] == Restore(old(screen[..]), ScreenOffset(e.x, e.y), backup[..], e.width) && !backupValid
        else screen[..] == old(screen[..]) && backupValid == old(backupValid)
    {
      var e := slots[i];
      if e.kind != None {
        var timer := e.timer;
        if timer > 0 {
          timer := timer - 1;
        }
        if timer == 0 {
          if e.kind == Shake && backupValid {
            var offset := ScreenOffset(e.x, e.y);
            RestoreRow(screen, offset, e.width);
            backupValid := false;
          }
          slots[i] := e.(timer := 0, kind := None);
        } else {
          slots[i] := e.(timer := timer);
        }
      }
    }

    /** The restore loop of `effects_update`: the `w` cells from `offset` on are copied back from the backup. */
    method RestoreRow(screen: array<Byte>, offset: nat, w: Byte)
      requires Valid() && screen != backup
      requires w <= ShakeBackupSize && offset + w <= screen.Length
      modifies screen
      ensures screen[..] == Restore(old(screen[..]), offset, backup[..], w)
    {
      var j := 0;
      while j < w
        invariant 0 <= j <= w
        invariant forall k :: 0 <= k < screen.Length ==>
          screen[k] == if offset <= k < offset + j then backup[k - offset] else old(screen[k])
      {
        screen[offset + j] := backup[j];
        j := j + 1;
      }
    }

    /** `effects_render`: the render passes of all slots, in slot order. */
    method Render(screen: array<Byte>, colors: array<Byte>)
      requires Valid() && screen != colors && screen != backup && colors != backup
      requires PoolFits(slots[..], screen.Length, colors.Length)
      modifies screen, colors, backup, this`backupValid
      ensures Memory(screen[..], colors[..], backup[..], backupValid)
           == RenderAll(slots[..], MaxActiveEffects, old(Memory(screen[..], colors[..], backup[..], backupValid)))
    {
      ghost var m0 := Memory(screen[..], colors[..], backup[..], backupValid);
      for i := 0 to MaxActiveEffects
        invariant Memory(screen[..], colors[..], backup[..], backupValid) == RenderAll(slots[..], i, m0)
      {
        var e := slots[i];
        assert SlotFits(e, screen.Length, colors.Length);
        match e.kind {
          case Flash => RenderFlash(e, colors);
          case Shake => RenderShake(e, screen);
          case _ =>
        }
      }
    }

    /** The flash pass: on even timers every cell of the region takes the flash colour; on odd timers nothing is written. */
    method RenderFlash(e: Effect, colors: array<Byte>)
      requires e.kind == Flash && RowsFit(FlashRows(e), e.width, colors.Length)
      modifies colors
      ensures colors[..] == if e.timer % 2 == 0 then Paint(old(colors[..]), FlashRows(e), e.width, e.param1) else old(colors[..])
    {
      ghost var rows := FlashRows(e);
      ghost var even := e.timer % 2 == 0;
      var j := 0;
      while j < e.height
        invariant 0 <= j <= e.height
        invariant forall k :: 0 <= k < colors.Length ==>
          colors[k] == if even && InRows(k, rows[..j], e.width) then e.param1 else old(colors[k])
      {
        var offset := (e.y + j) * ScreenWidth + e.x;
        assert offset == rows[j];
        assert rows[..j + 1][..j] == rows[..j];
        var k := 0;
        while k < e.width
          invariant 0 <= k <= e.width
          invariant forall c :: 0 <= c < colors.Length ==>
            colors[c] == if even && (InRows(c, rows[..j], e.width) || offset <= c < offset + k) then e.param1 else old(colors[c])
        {
          if e.timer % 2 == 0 {
            colors[offset + k] := e.param1;
          }
          k := k + 1;
        }
        j := j + 1;
      }
      assert rows[..e.height] == rows;
    }

    /** The shake pass: the first-frame snapshot into the backup, then one shift of the row. */
    method RenderShake(e: Effect, screen: array<Byte>)
      requires Valid() && screen != backup
      requires e.kind == Shake && 1 <= e.width && ScreenOffset(e.x, e.y) + e.width <= screen.Length
      modifies screen, backup, this`backupValid
      ensures ghost var m := ShakeStep(e, old(Memory(screen[..], [], backup[..], backupValid)));
        screen[..] == m.screen && backup[..] == m.backup && backupValid == m.backupValid
    {
      var offset := ScreenOffset(e.x, e.y);
      if e.timer == e.param1 - 1 {
        SnapshotRow(screen, offset, e.width);
      }
      if e.timer % 2 == 0 {
        ShiftRowRight(screen, offset, e.width);
      } else {
        ShiftRowLeft(screen, offset, e.width);
      }
    }

    /** The first frame of a shake: the first `min(w, 40)` cells of the row are copied into the backup, which becomes valid. */
    method SnapshotRow(screen: array<Byte>, offset: nat, w: Byte)
      requires Valid() && screen != backup && offset + w <= screen.Length
      modifies backup, this`backupValid
      ensures backup[..] == Snapshot(old(backup[..]), screen[..], offset, if w <= ShakeBackupSize then w else ShakeBackupSize)
      ensures backupValid
    {
      var j := 0;
      while j < w && j < ShakeBackupSize
        invariant 0 <= j <= w && j <= ShakeBackupSize
        invariant forall c :: 0 <= c < ShakeBackupSize ==>
          backup[c] == if c < j then screen[offset + c] else old(backup[c])
      {
        backup[j] := screen[offset + j];
        j := j + 1;
      }
      backupValid := true;
    }

    /** The right shift of a shake: cells move one place right, from the end of the row down to its second cell. */
    static method ShiftRowRight(screen: array<Byte>, offset: nat, w: Byte)
      requires 1 <= w && offset + w <= screen.Length
      modifies screen
      ensures screen[..] == ShiftRight(old(screen[..]), offset, w)
    {
      var j := w - 1;
      while j > 0
        invariant 0 <= j <= w - 1
        invariant forall k :: 0 <= k < screen.Length ==>
          screen[k] == if offset + j < k < offset + w then old(screen[k - 1]) else old(screen[k])
      {
        screen[offset + j] := screen[offset + j - 1];
        j := j - 1;
      }
    }

    /** The left shift of a shake: cells move one place left, from the start of the row up to its next-to-last cell. */
    static method ShiftRowLeft(screen: array<Byte>, offset: nat, w: Byte)
      requires offset + w <= screen.Length
      modifies screen
      ensures screen[..] == ShiftLeft(old(screen[..]), offset, w)
    {
      var j: nat := 0;
      while j + 1 < w
        invariant j == 0 || j + 1 <= w
        invariant forall k :: 0 <= k < screen.Length ==>
          screen[k] == if offset <= k < offset + j then old(screen[k + 1]) else old(screen[k])
      {
        screen[offset + j] := screen[offset + j + 1];
        j := j + 1;
      }
    }
  }

  // ---------------------------------------------------------------------
  // Frames: update, then render
  // ---------------------------------------------------------------------

  /** The memories are large enough for one frame of pool `s`. */
  predicate FrameFits(s: seq<Effect>, m: Memory) {
    |m.backup| == ShakeBackupSize && UpdateFits(s, m.backupValid, |m.screen|) &&
    PoolFits(Ticked(s), |m.screen|, |m.colors|)
  }

  /** One frame of the game loop: `effects_update`, then `effects_render`. */
  function Frame(s: seq<Effect>, m: Memory): (seq<Effect>, Memory)
    requires FrameFits(s, m)
  {
    var t := Ticked(s);
    var (screen, valid) := UpdateScreen(s, m.screen, m.backup, m.backupValid);
    (t, RenderAll(t, |t|, m.(screen := screen, backupValid := valid)))
  }

  /** The memories are large enough for `n` frames. */
  predicate FramesFit(s: seq<Effect>, m: Memory, n: nat)
    decreases n
  {
    n == 0 || (FrameFits(s, m) && var (s1, m1) := Frame(s, m); FramesFit(s1, m1, n - 1))
  }

  /** `n` frames in a row. */
  function Frames(s: seq<Effect>, m: Memory, n: nat): (seq<Effect>, Memory)
    requires FramesFit(s, m, n)
    decreases n
  {
    if n == 0 then (s, m) else var (s1, m1) := Frame(s, m); Frames(s1, m1, n - 1)
  }

  /** Every slot but `i` is free. */
  predicate OnlyLive(s: seq<Effect>, i: nat) {
    i < |s| && forall j :: 0 <= j < |s| && j != i ==> s[j].kind == None
  }

  /**
   * The middle of a shake's life: slot `i` is the only live slot, a shake
   * with timer `t`; the backup is valid and holds the row as it was in
   * `original`, and the screen agrees with `original` outside the row.
   */
  predicate Shaken(s: seq<Effect>, i: nat, m: Memory, original: seq<Byte>, t: nat) {
    OnlyLive(s, i) && s[i].kind == Shake && s[i].timer == t && s[i].param1 == ShakeFrames &&
    1 <= s[i].width <= ShakeBackupSize &&
    ScreenOffset(s[i].x, s[i].y) + s[i].width <= |m.screen| == |original| &&
    |m.backup| == ShakeBackupSize && m.backupValid &&
    (forall j :: 0 <= j < s[i].width ==> m.backup[j] == original[ScreenOffset(s[i].x, s[i].y) + j]) &&
    (forall k :: 0 <= k < |original| && !(ScreenOffset(s[i].x, s[i].y) <= k < ScreenOffset(s[i].x, s[i].y) + s[i].width) ==>
      m.screen[k] == original[k])
  }

  /** With one live slot, ticking the pool ticks that slot. */
  lemma TickedSingle(s: seq<Effect>, i: nat)
    requires OnlyLive(s, i)
    ensures Ticked(s) == s[i := Tick(s[i])]
  {
  }

  /** The update of the next frame restores `original`, invalidates the backup and leaves no live slot. */
  predicate Settled(s: seq<Effect>, m: Memory, original: seq<Byte>) {
    |m.backup| == ShakeBackupSize && UpdateFits(s, m.backupValid, |m.screen|) &&
    UpdateScreen(s, m.screen, m.backup, m.backupValid) == (original, false) &&
    CountLive(Ticked(s)) == 0
  }

  /** One frame in the middle of a shake's life keeps the row shaken, one frame closer to its end. */
  lemma ShakenStep(s: seq<Effect>, i: nat, m: Memory, original: seq<Byte>, t: nat)
    requires 2 <= t < ShakeFrames && Shaken(s, i, m, original, t)
    ensures FrameFits(s, m) && Shaken(Frame(s, m).0, i, Frame(s, m).1, original, t - 1)
  {
    SingleShakeFrame(s, i, m);
    ShakeStepSpec(Tick(s[i]), m);
  }

  /** A frame of a pool whose only live slot is a shake with two or more frames left: the slot ticks and shakes its row. */
  lemma SingleShakeFrame(s: seq<Effect>, i: nat, m: Memory)
    requires OnlyLive(s, i) && s[i].kind == Shake && 2 <= s[i].timer
    requires SlotFits(s[i], |m.screen|, |m.colors|) && |m.backup| == ShakeBackupSize
    ensures Tick(s[i]) == s[i].(timer := s[i].timer - 1)
    ensures FrameFits(s, m) && Frame(s, m) == (s[i := Tick(s[i])], ShakeStep(Tick(s[i]), m))
  {
    TickedSingle(s, i);
    assert FirstExpiringShake(s) == |s|;
    var s1 := Ticked(s);
    assert PoolFits(s1, |m.screen|, |m.colors|);
    RenderAllSingle(s1, i, |s1|, m);
  }

  /** On the last frame of a shake the update puts the row back as it was and frees the slot. */
  lemma ShakenLast(s: seq<Effect>, i: nat, m: Memory, original: seq<Byte>)
    requires Shaken(s, i, m, original, 1)
    ensures Settled(s, m, original)
  {
    TickedSingle(s, i);
    assert FirstExpiringShake(s) == i;
    assert Restore(m.screen, ScreenOffset(s[i].x, s[i].y), m.backup, s[i].width) == original;
  }

  /** A shaken row that has `t - 1` frames left is back to `original` once the shake expires, and the pool is empty. */
  lemma {:induction false} ShakeSettles(s: seq<Effect>, i: nat, m: Memory, original: seq<Byte>, t: nat)
    requires 1 <= t < ShakeFrames && Shaken(s, i, m, original, t)
    decreases t
    ensures FramesFit(s, m, t - 1) && Settled(Frames(s, m, t - 1).0, Frames(s, m, t - 1).1, original)
  {
    if t == 1 {
      ShakenLast(s, i, m, original);
    } else {
      ShakenStep(s, i, m, original, t);
      var (s1, m1) := Frame(s, m);
      ShakeSettles(s1, i, m1, original, t - 1);
    }
  }

  /**
   * A shake added to an otherwise empty pool, at most 40 cells wide, lives
   * six frames: after five frames the sixth update puts the shaken row
   * back exactly as it was before the first frame, invalidates the backup
   * and frees the slot.
   */
  lemma ShakeRestoresScreen(s: seq<Effect>, i: nat, m: Memory)
    requires OnlyLive(s, i) && s[i].kind == Shake && s[i].timer == ShakeFrames && s[i].param1 == ShakeFrames
    requires 1 <= s[i].width <= ShakeBackupSize && ScreenOffset(s[i].x, s[i].y) + s[i].width <= |m.screen|
    requires |m.backup| == ShakeBackupSize
    ensures FramesFit(s, m, ShakeFrames - 1)
    ensures var (s5, m5) := Frames(s, m, ShakeFrames - 1);
      |m5.backup| == ShakeBackupSize && UpdateFits(s5, m5.backupValid, |m5.screen|) &&
      UpdateScreen(s5, m5.screen, m5.backup, m5.backupValid) == (m.screen, false) &&
      CountLive(Ticked(s5)) == 0
  {
    ShakeFirstFrame(s, i, m);
    var (s1, m1) := Frame(s, m);
    ShakeSettles(s1, i, m1, m.screen, ShakeFrames - 1);
  }

  /** The first frame of a shake takes a valid backup of the row and leaves it shaken with five frames to go. */
  lemma ShakeFirstFrame(s: seq<Effect>, i: nat, m: Memory)
    requires OnlyLive(s, i) && s[i].kind == Shake && s[i].timer == ShakeFrames && s[i].param1 == ShakeFrames
    requires 1 <= s[i].width <= ShakeBackupSize && ScreenOffset(s[i].x, s[i].y) + s[i].width <= |m.screen|
    requires |m.backup| == ShakeBackupSize
    ensures FrameFits(s, m) && Shaken(Frame(s, m).0, i, Frame(s, m).1, m.screen, ShakeFrames - 1)
  {
    SingleShakeFrame(s, i, m);
    var e := Tick(s[i]);
    ShakeStepSpec(e, m);
    var m1 := ShakeStep(e, m);
    assert forall j :: 0 <= j < e.width ==> m1.backup[j] == m.screen[ScreenOffset(e.x, e.y) + j];
  }
}
