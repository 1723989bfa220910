/** A bounded map of pages: what the swap manager is to its users. */
module SwapStores {
  import opened Types
  import opened SwapDevices

  datatype Store = Store(slots: nat, pages: map<Frame, Page>)

  /** The page is not out yet and there is room. */
  predicate Storable(st: Store, p: Frame) {
    p !in st.pages && |st.pages| < st.slots
  }

  function Put(st: Store, p: Frame, page: Page): Store {
    if Storable(st, p) then st.(pages := st.pages[p := page]) else st
  }

  function Taken(st: Store, p: Frame): Store {
    st.(pages := st.pages - {p})
  }
}
