/** The page's single mutable state and its one write path, `setState`,
    with the bag and session operations built on it and the state patches
    that the page's event listeners issue (src/main.ts:5-58 and the
    listeners of src/main.ts:116-622 without their DOM). */
module Shop {
  import opened Types
  import opened Bag
  import opened Catalog

  /** A `Partial<State>`: `Some` for each field the patch carries. */
  datatype Patch = Patch(
    store: Option<seq<Item>>,
    tab: Option<Tab>,
    modal: Option<Modal>,
    search: Option<string>,
    user: Option<Option<User>>,
    selectedItem: Option<Option<Item>>,
    bag: Option<seq<BagItem>>)

  /** The patch that carries no field. */
  const NoChange := Patch(None, None, None, None, None, None, None)

  /** The value a field takes under `{...state, ...patch}`. */
  function Pick<T>(patched: Option<T>, current: T): T
  {
    if patched.Some? then patched.value else current
  }

  /** `{ ...state, ...patch }`: a shallow merge. */
  function Merge(s: State, p: Patch): (r: State)
    ensures p.store.Some? ==> r.store == p.store.value
    ensures p.tab.Some? ==> r.tab == p.tab.value
    ensures p.modal.Some? ==> r.modal == p.modal.value
    ensures p.search.Some? ==> r.search == p.search.value
    ensures p.user.Some? ==> r.user == p.user.value
    ensures p.selectedItem.Some? ==> r.selectedItem == p.selectedItem.value
    ensures p.bag.Some? ==> r.bag == p.bag.value
    ensures p.store.None? ==> r.store == s.store
    ensures p.tab.None? ==> r.tab == s.tab
    ensures p.modal.None? ==> r.modal == s.modal
    ensures p.search.None? ==> r.search == s.search
    ensures p.user.None? ==> r.user == s.user
    ensures p.selectedItem.None? ==> r.selectedItem == s.selectedItem
    ensures p.bag.None? ==> r.bag == s.bag
  {
    State(
      Pick(p.store, s.store),
      Pick(p.tab, s.tab),
      Pick(p.modal, s.modal),
      Pick(p.search, s.search),
      Pick(p.user, s.user),
      Pick(p.selectedItem, s.selectedItem),
      Pick(p.bag, s.bag))
  }

  /** `{ ...p, ...q }`: the later patch wins on the fields it carries. */
  function Then(p: Patch, q: Patch): Patch
  {
    Patch(
      if q.store.Some? then q.store else p.store,
      if q.tab.Some? then q.tab else p.tab,
      if q.modal.Some? then q.modal else p.modal,
      if q.search.Some? then q.search else p.search,
      if q.user.Some? then q.user else p.user,
      if q.selectedItem.Some? then q.selectedItem else p.selectedItem,
      if q.bag.Some? then q.bag else p.bag)
  }

  /** Merging two patches one after the other is merging their union, the
      later one winning; the empty patch changes nothing, and a patch applied
      twice has the effect of applying it once. */
  lemma MergeLaws(s: State, p: Patch, q: Patch)
    ensures Merge(Merge(s, p), q) == Merge(s, Then(p, q))
    ensures Merge(s, NoChange) == s
    ensures Merge(Merge(s, p), p) == Merge(s, p)
  {
  }

  /** The user record as `updateUser` sends it after a bag change: the
      signed-in user with the new bag; nothing is sent when signed out. */
  function SyncFor(user: Option<User>, bag: seq<BagItem>): (r: seq<User>)
    ensures |r| == if user.Some? then 1 else 0
    ensures forall u :: u in r ==>
      user.Some? && u.bag == Some(bag) && u.(bag := None) == user.value.(bag := None)
  {
    if user.Some? then [user.value.(bag := Some(bag))] else []
  }

  /** What `serverSignIn` resolves with (src/main.ts:91-99): the error
      object when the password does not match, otherwise the user record
      itself, not wrapped in `{ user }`. */
  datatype SignInReply = Rejected(error: string) | Accepted(record: User)

  /** The sign-in form's listener treats an accepted reply as `{ user }`, so
      the record it hands to `signIn` is undefined and the sign-in never
      happens, while the evidently intended transition signs the user in and
      closes the form: for any state with the form open the two differ. */
  lemma SignInFormFinding(s: State, u: User)
    requires s.modal == SignInModal && u.bag.Some?
    ensures s.(bag := u.bag.value, user := Some(u.(bag := None)), modal := NoModal) != s
    ensures s.(bag := u.bag.value, user := Some(u.(bag := None)), modal := NoModal).user.Some?
  {
  }

  /** The application state. `syncs` records, oldest first, every user record
      the page asked the remote store to save; the requests themselves are
      fire-and-forget and not modelled. */
  class Shop {
    var state: State
    ghost var syncs: seq<User>

    constructor ()
      ensures state == InitialState && syncs == []
    {
      state := InitialState;
      syncs := [];
    }

    /** The only write path into the state (src/main.ts:15-18); the re-render
        it triggers is a function of the new state. */
    method SetState(p: Patch)
      modifies this
      ensures state == Merge(old(state), p)
      ensures syncs == old(syncs)
    {
      state := Merge(state, p);
    }

    /** `addToBag` (src/main.ts:20-41): bump the entry with this id or append
        a new one with quantity 1, then save the bag if signed in. */
    method AddToBag(itemId: int)
      modifies this
      ensures state == old(state).(bag := AddedBag(old(state).bag, itemId))
      ensures syncs == old(syncs) + SyncFor(state.user, state.bag)
      ensures WellFormed(old(state).bag) ==> WellFormed(state.bag)
    {
      if HasId(state.bag, itemId) {
        var updatedBag := Incremented(state.bag, itemId);
        SetState(NoChange.(bag := Some(updatedBag)));
      } else {
        var updatedBag := state.bag + [BagItem(itemId, 1)];
        SetState(NoChange.(bag := Some(updatedBag)));
      }
      if WellFormed(old(state).bag) {
        AddPreservesWellFormed(old(state).bag, itemId);
      }
      if state.user.None? {
        return;
      }
      syncs := syncs + [state.user.value.(bag := Some(state.bag))];
    }

    /** `removeFromBag` (src/main.ts:43-48): drop every entry with this id,
        then save the bag if signed in. */
    method RemoveFromBag(itemId: int)
      modifies this
      ensures state == old(state).(bag := RemovedBag(old(state).bag, itemId))
      ensures syncs == old(syncs) + SyncFor(state.user, state.bag)
      ensures WellFormed(old(state).bag) ==> WellFormed(state.bag)
    {
      SetState(NoChange.(bag := Some(RemovedBag(state.bag, itemId))));
      if WellFormed(old(state).bag) {
        RemovePreservesWellFormed(old(state).bag, itemId);
      }
      if state.user.None? {
        return;
      }
      syncs := syncs + [state.user.value.(bag := Some(state.bag))];
    }

    /** `signIn` (src/main.ts:50-53): the user's stored bag replaces the
        current one, and the user is kept without its bag field. */
    method SignIn(user: User)
      requires user.bag.Some?
      modifies this
      ensures state == old(state).(bag := user.bag.value, user := Some(user.(bag := None)))
      ensures syncs == old(syncs)
    {
      SetState(NoChange.(bag := user.bag, user := Some(Some(user.(bag := None)))));
    }

    /** `signOut` (src/main.ts:55-58): no user and an empty bag. */
    method SignOut()
      modifies this
      ensures state == old(state).(user := None, bag := [])
      ensures syncs == old(syncs)
    {
      SetState(NoChange.(user := Some(None), bag := Some([])));
    }

    /** The catalog fetched at start-up arrives (src/main.ts:644). */
    method StoreLoaded(store: seq<Item>)
      modifies this
      ensures state == old(state).(store := store)
      ensures syncs == old(syncs)
    {
      SetState(NoChange.(store := Some(store)));
    }

    /** Clicking a product image selects it (src/main.ts:135). */
    method ClickProductImage(item: Item)
      modifies this
      ensures state == old(state).(selectedItem := Some(item))
      ensures syncs == old(syncs)
    {
      SetState(NoChange.(selectedItem := Some(Some(item))));
    }

    /** Clicking the logo goes back to the `Home` tab with nothing selected
        (src/main.ts:177). */
    method ClickLogo()
      modifies this
      ensures state == old(state).(tab := Home, selectedItem := None)
      ensures syncs == old(syncs)
    {
      SetState(NoChange.(tab := Some(Home), selectedItem := Some(None)));
    }

    /** Clicking one of the three menu tabs selects it and clears the
        selection (src/main.ts:185-190). */
    method ClickTab(tab: Tab)
      requires tab == Girls || tab == Guys || tab == Sale
      modifies this
      ensures state == old(state).(tab := tab, selectedItem := None)
      ensures syncs == old(syncs)
    {
      SetState(NoChange.(tab := Some(tab), selectedItem := Some(None)));
    }

    /** The search icon opens the search form (src/main.ts:205). */
    method ClickSearchIcon()
      modifies this
      ensures state == old(state).(modal := SearchModal)
      ensures syncs == old(syncs)
    {
      SetState(NoChange.(modal := Some(SearchModal)));
    }

    /** The profile icon opens the profile when signed in, else the sign-in
        form (src/main.ts:211). */
    method ClickProfileIcon()
      modifies this
      ensures state == old(state).(modal := if old(state).user.Some? then ProfileModal else SignInModal)
      ensures syncs == old(syncs)
    {
      SetState(NoChange.(modal := Some(if state.user.Some? then ProfileModal else SignInModal)));
    }

    /** The bag icon opens the bag (src/main.ts:220). */
    method ClickBagIcon()
      modifies this
      ensures state == old(state).(modal := BagModal)
      ensures syncs == old(syncs)
    {
      SetState(NoChange.(modal := Some(BagModal)));
    }

    /** The "ADD TO BAG" button adds the selected item, if any, then clears
        the selection (src/main.ts:270-275). */
    method ClickAddToBag()
      modifies this
      ensures old(state).selectedItem.Some? ==>
        state == old(state).(bag := AddedBag(old(state).bag, old(state).selectedItem.value.id), selectedItem := None)
      ensures old(state).selectedItem.None? ==> state == old(state)
      ensures syncs == old(syncs) +
        (if old(state).selectedItem.Some? then SyncFor(state.user, state.bag) else [])
    {
      if state.selectedItem.Some? {
        AddToBag(state.selectedItem.value.id);
      }
      SetState(NoChange.(selectedItem := Some(None)));
    }

    /** The clear-search button (src/main.ts:351). */
    method ClickClearSearch()
      modifies this
      ensures state == old(state).(search := "")
      ensures syncs == old(syncs)
    {
      SetState(NoChange.(search := Some("")));
    }

    /** Submitting the search form sets the search, closes the modal and
        clears the selection (src/main.ts:402-405). */
    method SubmitSearch(text: string)
      modifies this
      ensures state == old(state).(search := text, modal := NoModal, selectedItem := None)
      ensures syncs == old(syncs)
    {
      SetState(NoChange.(search := Some(text), modal := Some(NoModal), selectedItem := Some(None)));
    }

    /** A successful sign-in signs the user in and closes the modal, as
        src/main.ts:456-457 intend once they receive the user record. */
    method SignInSucceeded(user: User)
      requires user.bag.Some?
      modifies this
      ensures state == old(state).(bag := user.bag.value, user := Some(user.(bag := None)), modal := NoModal)
      ensures syncs == old(syncs)
    {
      SignIn(user);
      SetState(NoChange.(modal := Some(NoModal)));
    }

    /** Submitting the sign-in form as the listener is written
        (src/main.ts:453-459). A rejected reply only raises an alert. An
        accepted reply is the bare user record, so `data.user` is undefined,
        `signIn` throws while destructuring it (src/main.ts:50), and the
        `setState` that would close the form never runs: nothing changes. */
    method SubmitSignInAsWritten(reply: SignInReply)
      modifies this
      ensures state == old(state)
      ensures syncs == old(syncs)
    {
    }

    /** Submitting the sign-in form as evidently intended: an accepted reply
        signs its record in and closes the form, a rejected one changes
        nothing. */
    method SubmitSignIn(reply: SignInReply)
      requires reply.Accepted? ==> reply.record.bag.Some?
      modifies this
      ensures reply.Rejected? ==> state == old(state)
      ensures reply.Accepted? ==> state == old(state).(
        bag := reply.record.bag.value, user := Some(reply.record.(bag := None)), modal := NoModal)
      ensures syncs == old(syncs)
    {
      if reply.Accepted? {
        SignInSucceeded(reply.record);
      }
    }

    /** The sign-out button signs out and closes the modal (src/main.ts:481-484). */
    method ClickSignOut()
      modifies this
      ensures state == old(state).(user := None, bag := [], modal := NoModal)
      ensures syncs == old(syncs)
    {
      SignOut();
      SetState(NoChange.(modal := Some(NoModal)));
    }

    /** Clicking a bag line's name closes the modal and selects the catalog
        item with that id, or nothing when there is none (src/main.ts:491, 507-509). */
    method ClickBagItemName(entry: BagItem)
      modifies this
      ensures state == old(state).(modal := NoModal, selectedItem := Find(old(state).store, entry.id))
      ensures syncs == old(syncs)
    {
      var storeItem := Find(state.store, entry.id);
      SetState(NoChange.(modal := Some(NoModal), selectedItem := Some(storeItem)));
    }

    /** A bag line's remove button removes the catalog item it shows
        (src/main.ts:539-542); the catalog item must exist. */
    method ClickRemove(entry: BagItem)
      requires Find(state.store, entry.id).Some?
      modifies this
      ensures state == old(state).(bag := RemovedBag(old(state).bag, entry.id))
      ensures syncs == old(syncs) + SyncFor(state.user, state.bag)
    {
      var storeItem := Find(state.store, entry.id);
      RemoveFromBag(storeItem.value.id);
    }

    /** The close button, or a click on the backdrop, closes the modal
        (src/main.ts:600-602, 613-615). */
    method CloseModal()
      modifies this
      ensures state == old(state).(modal := NoModal)
      ensures syncs == old(syncs)
    {
      SetState(NoChange.(modal := Some(NoModal)));
    }
  }
}
